/**
  REALITY authentication: the 32-byte token in the session id, the replay table, and the server's
  decision. ECDH and HMAC are arbitrary functions obeying only their functional laws.
 */
module RealityAuth {
  import opened ByteSeq

  const TOKEN_SIZE := 32
  const CONTEXT: Bytes := [105, 80, 83, 104, 97, 100, 111, 119, 84, 45, 82, 69, 65, 76, 73, 84, 89, 45, 118, 49]

  /** publicKey of a private key; the shared secret of a private and a public key; a 32-byte MAC. */
  datatype Crypto = Crypto(
    publicKey: Bytes -> Bytes,
    ecdh: (Bytes, Bytes) -> Option<Bytes>,
    hmac: (Bytes, Bytes) -> Bytes)

  ghost predicate Lawful(k: Crypto)
  {
    && (forall a :: |k.publicKey(a)| == 32)
    && (forall a, b :: k.ecdh(a, k.publicKey(b)) == k.ecdh(b, k.publicKey(a)))
    && (forall a, b :: |k.hmac(a, b)| == 32)
  }

  // ---- Short ids ----

  /** The value of a hex digit. */
  function Digit(c: Byte): Option<Byte>
  {
    if 48 <= c <= 57 then Some(c - 48)
    else if 97 <= c <= 102 then Some(c - 87)
    else if 65 <= c <= 70 then Some(c - 55)
    else None
  }

  /** hex.DecodeString on an even-length string. */
  function Unhex(s: Bytes): Option<Bytes>
  {
    if |s| < 2 then if s == [] then Some([]) else None
    else match (Digit(s[0]), Digit(s[1]), Unhex(s[2..]))
      case (Some(hi), Some(lo), Some(rest)) => Some([(hi % 16) * 16 + lo % 16] + rest)
      case _ => None
  }

  function DecodeHexFlexible(s: Bytes): Option<Bytes> { Unhex(if |s| % 2 == 1 then [48] + s else s) }

  /** Cut or zero-padded to eight bytes. */
  function Eight(b: Bytes): (r: Bytes)
    ensures |r| == 8
  {
    seq(8, i requires 0 <= i => if i < |b| then b[i] else 0)
  }

  /** A hex short id by its bytes, any other by its characters. */
  function NormalizeShortId(id: Bytes): (r: Bytes)
    ensures |r| == 8
  {
    match DecodeHexFlexible(id)
    case Some(b) => if |b| > 0 then Eight(b) else Eight(id)
    case None => Eight(id)
  }

  function HexDigit(n: nat): Byte
    requires n < 16
  {
    if n < 10 then 48 + n else 87 + n
  }

  /** hex.EncodeToString, as short ids are generated. */
  function Hex(b: Bytes): Bytes
  {
    if b == [] then [] else [HexDigit(b[0] / 16), HexDigit(b[0] % 16)] + Hex(b[1..])
  }

  lemma DigitsBack(n: Byte)
    ensures n / 16 < 16 && Digit(HexDigit(n / 16)) == Some(n / 16) && Digit(HexDigit(n % 16)) == Some(n % 16)
    ensures (n / 16 % 16) * 16 + n % 16 % 16 == n
  {
  }

  lemma {:induction false} UnhexHex(b: Bytes)
    ensures Unhex(Hex(b)) == Some(b) && |Hex(b)| == 2 * |b|
  {
    hide Digit, HexDigit, Unhex;
    if b != [] {
      DigitsBack(b[0]);
      UnhexHex(b[1..]);
      UnhexPair(HexDigit(b[0] / 16), HexDigit(b[0] % 16), b[0], Hex(b[1..]), b[1..]);
      assert b == [b[0]] + b[1..];
    } else {
      UnhexNothing();
    }
  }

  lemma UnhexNothing()
    ensures Unhex([]) == Some([])
  {
  }

  lemma UnhexPair(hi: Byte, lo: Byte, value: Byte, rest: Bytes, restValue: Bytes)
    requires Digit(hi) == Some(value / 16) && Digit(lo) == Some(value % 16) && Unhex(rest) == Some(restValue)
    ensures Unhex([hi, lo] + rest) == Some([value] + restValue)
  {
    hide Digit;
    DigitsBack(value);
    assert ([hi, lo] + rest)[2..] == rest;
  }

  /** A generated short id normalizes to the bytes it was generated from. */
  lemma GeneratedIdNormalizes(b: Bytes)
    requires |b| == 8
    ensures NormalizeShortId(Hex(b)) == b
  {
    UnhexHex(b);
    assert Eight(b) == b;
  }

  /** The character spells the hex digit v, in either case. */
  predicate Spells(c: Byte, v: int)
  {
    (48 <= c <= 57 && c == 48 + v) || (97 <= c <= 102 && c == 87 + v) || (65 <= c <= 70 && c == 55 + v)
  }

  predicate IsHex(c: Byte) { 48 <= c <= 57 || 97 <= c <= 102 || 65 <= c <= 70 }

  /** A character spells at most one value. */
  lemma SpellsOne(c: Byte, v: int, w: int)
    requires Spells(c, v) && Spells(c, w)
    ensures v == w && 0 <= v < 16
  {
  }

  lemma DigitSpells(c: Byte)
    ensures Digit(c).Some? <==> IsHex(c)
    ensures Digit(c).Some? ==> Digit(c).value < 16 && Spells(c, Digit(c).value)
  {
  }

  /** Each pair of characters spells its byte. */
  predicate SpelledBy(s: Bytes, b: Bytes)
  {
    && 2 * |b| == |s|
    && forall j :: 0 <= j < |b| ==> Spells(s[2 * j], b[j] / 16) && Spells(s[2 * j + 1], b[j] % 16)
  }

  predicate AllHex(s: Bytes) { forall i :: 0 <= i < |s| ==> IsHex(s[i]) }

  lemma AllHexPair(s: Bytes)
    requires |s| >= 2
    ensures AllHex(s) <==> IsHex(s[0]) && IsHex(s[1]) && AllHex(s[2..])
  {
    hide IsHex;
    assert forall i :: 2 <= i < |s| ==> s[i] == s[2..][i - 2];
  }

  lemma Nibbles(hi: int, lo: int)
    requires 0 <= hi < 16 && 0 <= lo < 16
    ensures ((hi % 16) * 16 + lo % 16) / 16 == hi && ((hi % 16) * 16 + lo % 16) % 16 == lo
  {
  }

  lemma UnhexPairIff(s: Bytes)
    requires |s| >= 2
    ensures Unhex(s).Some? <==> Digit(s[0]).Some? && Digit(s[1]).Some? && Unhex(s[2..]).Some?
    ensures Unhex(s).Some? ==>
      Unhex(s).value == [(Digit(s[0]).value % 16) * 16 + Digit(s[1]).value % 16] + Unhex(s[2..]).value
  {
    hide Digit;
  }

  lemma FirstPair(s: Bytes)
    requires |s| >= 2
    ensures Unhex(s).Some? <==> IsHex(s[0]) && IsHex(s[1]) && Unhex(s[2..]).Some?
    ensures Unhex(s).Some? ==>
      exists b: Byte :: Unhex(s).value == [b] + Unhex(s[2..]).value && Spells(s[0], b / 16) && Spells(s[1], b % 16)
  {
    hide Digit, IsHex, Spells, Unhex;
    DigitSpells(s[0]);
    DigitSpells(s[1]);
    UnhexPairIff(s);
    if Unhex(s).Some? {
      Nibbles(Digit(s[0]).value, Digit(s[1]).value);
    }
  }

  lemma PairSpelled(s: Bytes, b: Byte, rest: Bytes)
    requires |s| >= 2 && SpelledBy(s[2..], rest) && Spells(s[0], b / 16) && Spells(s[1], b % 16)
    ensures SpelledBy(s, [b] + rest)
  {
    hide Spells;
    var all := [b] + rest;
    forall j | 0 < j < |all| ensures Spells(s[2 * j], all[j] / 16) && Spells(s[2 * j + 1], all[j] % 16) {
      var i := j - 1;
      assert all[j] == rest[i] && s[2 * j] == s[2..][2 * i] && s[2 * j + 1] == s[2..][2 * i + 1];
    }
  }

  /** Decoding succeeds exactly on pairs of hex characters, and yields the bytes they spell. */
  lemma {:induction false} UnhexMeans(s: Bytes)
    ensures Unhex(s).Some? <==> |s| % 2 == 0 && AllHex(s)
    ensures Unhex(s).Some? ==> SpelledBy(s, Unhex(s).value)
  {
    hide AllHex, SpelledBy, Spells, IsHex, Unhex;
    if |s| < 2 {
      UnhexShort(s);
    } else {
      FirstPair(s);
      AllHexPair(s);
      UnhexMeans(s[2..]);
      if Unhex(s).Some? {
        var rest := Unhex(s[2..]).value;
        var b: Byte :| Unhex(s).value == [b] + rest && Spells(s[0], b / 16) && Spells(s[1], b % 16);
        PairSpelled(s, b, rest);
      }
    }
  }

  lemma UnhexShort(s: Bytes)
    requires |s| < 2
    ensures Unhex(s).Some? <==> s == []
    ensures s == [] ==> AllHex(s) && Unhex(s).Some? && SpelledBy(s, Unhex(s).value)
  {
  }

  /** An id that is not hex stands for its characters, the first eight of them, zero-padded. */
  lemma OtherIdNormalizes(id: Bytes)
    requires exists i :: 0 <= i < |id| && !IsHex(id[i])
    ensures forall j :: 0 <= j < 8 ==> NormalizeShortId(id)[j] == if j < |id| then id[j] else 0
  {
    hide Unhex, IsHex;
    var s := if |id| % 2 == 1 then [48] + id else id;
    UnhexMeans(s);
    var i :| 0 <= i < |id| && !IsHex(id[i]);
    assert s[i + |id| % 2] == id[i];
  }

  /** A hex id stands for the bytes it spells, an odd one with a zero in front; cut or zero-padded to eight. */
  lemma HexIdNormalizes(id: Bytes)
    requires id != [] && forall i :: 0 <= i < |id| ==> IsHex(id[i])
    ensures var s, r := if |id| % 2 == 1 then [48] + id else id, NormalizeShortId(id);
      forall j :: 0 <= j < 8 ==>
        if 2 * j < |s| then Spells(s[2 * j], r[j] / 16) && Spells(s[2 * j + 1], r[j] % 16) else r[j] == 0
  {
    hide Unhex, Spells;
    var s := if |id| % 2 == 1 then [48] + id else id;
    forall i | 0 <= i < |s| ensures IsHex(s[i]) {
      assert s[i] == 48 || s[i] == id[i - |id| % 2];
    }
    UnhexMeans(s);
  }

  /** The bytes up to the last nonzero one. */
  function TrimNull(b: Bytes): (r: Bytes)
    ensures r <= b
  {
    if b == [] then [] else if b[|b| - 1] != 0 then b else TrimNull(b[..|b| - 1])
  }

  method TrimNullLoop(b: Bytes) returns (r: Bytes)
    ensures r == TrimNull(b)
  {
    var i := |b| - 1;
    assert b[..|b|] == b;
    while i >= 0
      invariant -1 <= i < |b| && TrimNull(b) == TrimNull(b[..i + 1])
    {
      assert b[..i + 1][..i] == b[..i];
      if b[i] != 0 { return b[..i + 1]; }
      i := i - 1;
    }
    return b[..0];
  }

  /** Trimming loses nothing once the length is fixed. */
  lemma {:induction false} TrimInjective(a: Bytes, b: Bytes)
    requires |a| == |b| && TrimNull(a) == TrimNull(b)
    ensures a == b
  {
    if a != [] {
      var n := |a| - 1;
      assert a[n] == 0 ==> |TrimNull(a)| <= n;
      assert b[n] == 0 ==> |TrimNull(b)| <= n;
      if a[n] == 0 && b[n] == 0 {
        TrimInjective(a[..n], b[..n]);
        assert a == a[..n] + [a[n]] && b == b[..n] + [b[n]];
      }
    }
  }

  /** b ends in zeros from n on, and not before. */
  predicate EndsAt(b: Bytes, n: nat)
  {
    n <= |b| && (n == 0 || b[n - 1] != 0) && forall i :: n <= i < |b| ==> b[i] == 0
  }

  lemma {:induction false} TrimEnds(b: Bytes) returns (n: nat)
    ensures EndsAt(b, n) && TrimNull(b) == b[..n]
  {
    if b == [] || b[|b| - 1] != 0 {
      n := |b|;
    } else {
      n := TrimEnds(b[..|b| - 1]);
      assert b == b[..|b| - 1] + [0];
    }
  }

  // ---- The token ----

  datatype AuthToken = AuthToken(mac: Bytes, shortId: Bytes, timestamp: nat, padding: Bytes)

  predicate WellFormed(t: AuthToken)
  {
    |t.mac| == 16 && |t.shortId| == 8 && t.timestamp < 0x1_0000_0000 && |t.padding| == 4
  }

  function Serialize(t: AuthToken): Bytes { t.mac + t.shortId + Be32(t.timestamp) + t.padding }

  /** Go's uint32 of a Unix time. */
  function Seconds32(unix: nat): nat { unix % 0x1_0000_0000 }

  /** The first 16 bytes of HMAC(secret, context + timestamp + trimmed short id). */
  function Mac(k: Crypto, secret: Bytes, timestamp: nat, shortId: Bytes): Bytes
  {
    UpTo(k.hmac(secret, CONTEXT + Be32(timestamp) + TrimNull(shortId)), 16)
  }

  /** BuildAuthToken with a given ephemeral key, clock and padding. */
  function Build(k: Crypto, ephemeral: Bytes, serverPublic: Bytes, shortId: Bytes, unix: nat, padding: Bytes)
      : Option<AuthToken>
  {
    match k.ecdh(ephemeral, serverPublic)
    case None => None
    case Some(secret) =>
      var id, now := NormalizeShortId(shortId), Seconds32(unix);
      Some(AuthToken(Mac(k, secret, now, id), id, now, padding))
  }

  /** The first allowed entry with those bytes; empty entries never match. */
  function FirstAllowed(allowed: seq<Bytes>, id: Bytes): (r: Option<Bytes>)
    ensures r.Some? ==> r.value != [] && r.value in allowed && TrimNull(NormalizeShortId(r.value)) == TrimNull(id)
    ensures r.None? ==> forall i :: 0 <= i < |allowed| && allowed[i] != [] ==>
      TrimNull(NormalizeShortId(allowed[i])) != TrimNull(id)
  {
    if allowed == [] then None
    else if allowed[0] != [] && TrimNull(NormalizeShortId(allowed[0])) == TrimNull(id) then Some(allowed[0])
    else FirstAllowed(allowed[1..], id)
  }

  function Window(configured: int): nat { if configured <= 0 then 120 else configured }

  function Apart(a: nat, b: nat): nat { if a < b then b - a else a - b }

  /** VerifyAuthToken: the allowed short id on acceptance. */
  function Verify(k: Crypto, token: Bytes, ephPublic: Bytes, serverPrivate: Bytes, allowed: seq<Bytes>, window: int,
                  unix: nat): Option<Bytes>
  {
    if |token| != TOKEN_SIZE || |ephPublic| != 32 then None
    else match k.ecdh(serverPrivate, ephPublic)
      case None => None
      case Some(secret) =>
        var id, ts := token[16..24], U32At(token, 24);
        if Apart(Seconds32(unix), ts) > Window(window) then None
        else match FirstAllowed(allowed, id)
          case None => None
          case Some(name) => if token[..16] == Mac(k, secret, ts, id) then Some(name) else None
  }

  method BytesEqual(a: Bytes, b: Bytes) returns (equal: bool)
    ensures equal <==> a == b
  {
    if |a| != |b| { return false; }
    for i := 0 to |a|
      invariant forall j :: 0 <= j < i ==> a[j] == b[j]
    {
      if a[i] != b[i] { return false; }
    }
    return true;
  }

  method VerifyAuthToken(k: Crypto, token: Bytes, ephPublic: Bytes, serverPrivate: Bytes, allowed: seq<Bytes>,
                         window: int, unix: nat)
      returns (ok: bool, shortId: Bytes)
    ensures ok <==> Verify(k, token, ephPublic, serverPrivate, allowed, window, unix).Some?
    ensures shortId == if ok then Verify(k, token, ephPublic, serverPrivate, allowed, window, unix).value else []
  {
    hide U16, NormalizeShortId, Mac;
    if |token| != TOKEN_SIZE { return false, []; }
    if |ephPublic| != 32 { return false, []; }
    var sharedSecret := k.ecdh(serverPrivate, ephPublic);
    if sharedSecret.None? { return false, []; }
    var id, timestamp := token[16..24], U32At(token, 24);
    var timeWindow := if window <= 0 then 120 else window;
    var diff := Seconds32(unix) - timestamp;
    if diff < 0 {
      diff := -diff;
    }
    if diff > timeWindow { return false, []; }
    var found := false;
    shortId := [];
    var i := 0;
    while i < |allowed| && !found
      invariant i <= |allowed|
      invariant if found then FirstAllowed(allowed, id) == Some(shortId)
                else FirstAllowed(allowed, id) == FirstAllowed(allowed[i..], id)
    {
      assert allowed[i..][1..] == allowed[i + 1..];
      if allowed[i] != [] {
        var have := TrimNullLoop(id);
        var want := TrimNullLoop(NormalizeShortId(allowed[i]));
        var same := BytesEqual(have, want);
        if same {
          found, shortId := true, allowed[i];
        }
      }
      i := i + 1;
    }
    if !found { return false, []; }
    var same := BytesEqual(token[..16], Mac(k, sharedSecret.value, timestamp, id));
    if !same { return false, []; }
    ok := true;
  }

  method SerializeAuthToken(t: AuthToken) returns (buf: Bytes)
    requires WellFormed(t)
    ensures buf == Serialize(t) && |buf| == TOKEN_SIZE
    ensures buf[..16] == t.mac && buf[16..24] == t.shortId && buf[28..32] == t.padding
    ensures U32At(buf, 24) == t.timestamp
  {
    hide Be32, U16;
    var a := new Byte[TOKEN_SIZE](_ => 0);
    CopyInto(a, 0, t.mac);
    CopyInto(a, 16, t.shortId);
    assert a[..16] == t.mac;
    CopyInto(a, 24, Be32(t.timestamp));
    assert a[..24] == t.mac + t.shortId;
    CopyInto(a, 28, t.padding);
    assert a[..28] == t.mac + t.shortId + Be32(t.timestamp);
    buf := a[..];
    assert buf == a[..28] + a[28..32];
    SerializedFields(t);
  }

  // ---- Acceptance ----

  lemma SerializedFields(t: AuthToken)
    requires WellFormed(t)
    ensures var b := Serialize(t);
      && |b| == TOKEN_SIZE && b[..16] == t.mac && b[16..24] == t.shortId && b[28..32] == t.padding
      && U32At(b, 24) == t.timestamp
  {
    hide Be32, U16;
    Be32Value(t.timestamp);
    var b, len := Serialize(t), Be32(t.timestamp);
    assert b[24] == len[0] && b[25] == len[1] && b[26] == len[2] && b[27] == len[3];
  }

  /**
    A token the client builds for a nonempty allowed short id verifies on the server exactly while
    the clocks, as 32-bit seconds, are within the window; the id returned is an allowed one with
    the same normalized bytes.
   */
  lemma BuiltTokenVerifies(k: Crypto, ephemeral: Bytes, serverPrivate: Bytes, shortId: Bytes, padding: Bytes,
                           allowed: seq<Bytes>, window: int, builtAt: nat, seenAt: nat)
    requires Lawful(k) && shortId in allowed && shortId != [] && |padding| == 4
    requires Build(k, ephemeral, k.publicKey(serverPrivate), shortId, builtAt, padding).Some?
    ensures var t := Build(k, ephemeral, k.publicKey(serverPrivate), shortId, builtAt, padding).value;
      var r := Verify(k, Serialize(t), k.publicKey(ephemeral), serverPrivate, allowed, window, seenAt);
      && WellFormed(t)
      && (r.Some? <==> Apart(Seconds32(seenAt), Seconds32(builtAt)) <= Window(window))
      && (r.Some? ==> r.value in allowed && r.value != [] && NormalizeShortId(r.value) == NormalizeShortId(shortId))
  {
    hide Be32, U16, NormalizeShortId, Serialize;
    var t := Build(k, ephemeral, k.publicKey(serverPrivate), shortId, builtAt, padding).value;
    SerializedFields(t);
    var id := NormalizeShortId(shortId);
    var found := FirstAllowed(allowed, id);
    var i :| 0 <= i < |allowed| && allowed[i] == shortId;
    assert found.Some?;
    TrimInjective(NormalizeShortId(found.value), id);
  }

  /** The test by test form of acceptance. */
  lemma AcceptedByMac(k: Crypto, token: Bytes, ephPublic: Bytes, serverPrivate: Bytes, allowed: seq<Bytes>, window: int,
                    unix: nat)
    ensures Verify(k, token, ephPublic, serverPrivate, allowed, window, unix).Some? <==>
      && |token| == TOKEN_SIZE && |ephPublic| == 32
      && Apart(Seconds32(unix), U32At(token, 24)) <= Window(window)
      && (exists i :: 0 <= i < |allowed| && allowed[i] != [] && NormalizeShortId(allowed[i]) == token[16..24])
      && k.ecdh(serverPrivate, ephPublic).Some?
      && token[..16] == Mac(k, k.ecdh(serverPrivate, ephPublic).value, U32At(token, 24), token[16..24])
  {
    hide U16, NormalizeShortId, Mac;
    if |token| == TOKEN_SIZE {
      var id := token[16..24];
      var found := FirstAllowed(allowed, id);
      if found.Some? {
        TrimInjective(NormalizeShortId(found.value), id);
        var i :| 0 <= i < |allowed| && allowed[i] == found.value;
      }
    }
  }

  lemma MacIs(k: Crypto, token: Bytes, secret: Bytes, n: nat)
    requires |token| == TOKEN_SIZE && EndsAt(token[16..24], n)
    ensures token[..16] == Mac(k, secret, U32At(token, 24), token[16..24]) <==>
      token[..16] <= k.hmac(secret, CONTEXT + token[24..28] + token[16..24][..n])
  {
    hide U16, Be32;
    Be32Back(token, 24);
    var m := TrimEnds(token[16..24]);
    assert m == n;
  }

  /**
    Acceptance of any bytes means exactly: lengths, the two clocks as 32-bit seconds within the window,
    an allowed id, a shared secret, and the first 16 bytes of the HMAC over the context, the four stamp
    bytes and the id bytes up to the last nonzero one.
   */
  lemma AcceptedIff(k: Crypto, token: Bytes, ephPublic: Bytes, serverPrivate: Bytes, allowed: seq<Bytes>, window: int,
                    unix: nat)
    ensures Verify(k, token, ephPublic, serverPrivate, allowed, window, unix).Some? <==>
      && |token| == 32 && |ephPublic| == 32
      && (var w := if window <= 0 then 120 else window;
          var stamp := (token[24] as int) * 0x100_0000 + (token[25] as int) * 0x1_0000 + (token[26] as int) * 0x100
            + token[27] as int;
          -w <= unix % 0x1_0000_0000 - stamp <= w)
      && (exists i :: 0 <= i < |allowed| && allowed[i] != [] && NormalizeShortId(allowed[i]) == token[16..24])
      && k.ecdh(serverPrivate, ephPublic).Some?
      && (var secret, id := k.ecdh(serverPrivate, ephPublic).value, token[16..24];
          exists n: nat ::
            && n <= 8 && (n == 0 || id[n - 1] != 0) && (forall i :: n <= i < 8 ==> id[i] == 0)
            && token[..16] <= k.hmac(secret, CONTEXT + token[24..28] + id[..n]))
  {
    hide U16, NormalizeShortId, Mac, Verify;
    AcceptedByMac(k, token, ephPublic, serverPrivate, allowed, window, unix);
    if |token| == TOKEN_SIZE && k.ecdh(serverPrivate, ephPublic).Some? {
      var secret, id := k.ecdh(serverPrivate, ephPublic).value, token[16..24];
      Be32Back(token, 24);
      forall n: nat | EndsAt(id, n)
        ensures token[..16] == Mac(k, secret, U32At(token, 24), id) <==>
          token[..16] <= k.hmac(secret, CONTEXT + token[24..28] + id[..n]) {
        MacIs(k, token, secret, n);
      }
      var m := TrimEnds(id);
      assert id[..m] == id[..m];
    }
  }

  /** The id returned is the first nonempty allowed one with the token's bytes. */
  lemma ReturnsFirst(k: Crypto, token: Bytes, ephPublic: Bytes, serverPrivate: Bytes, allowed: seq<Bytes>, window: int,
                     unix: nat)
    requires Verify(k, token, ephPublic, serverPrivate, allowed, window, unix).Some?
    ensures |token| == TOKEN_SIZE
    ensures exists i ::
      && 0 <= i < |allowed|
      && Verify(k, token, ephPublic, serverPrivate, allowed, window, unix).value == allowed[i]
      && allowed[i] != [] && NormalizeShortId(allowed[i]) == token[16..24]
      && forall j :: 0 <= j < i ==> allowed[j] == [] || NormalizeShortId(allowed[j]) != token[16..24]
  {
    hide U16, NormalizeShortId, Mac;
    var i := FirstIndex(allowed, token[16..24]);
    assert Verify(k, token, ephPublic, serverPrivate, allowed, window, unix).value == allowed[i];
  }

  lemma {:induction false} FirstIndex(allowed: seq<Bytes>, id: Bytes) returns (i: nat)
    requires FirstAllowed(allowed, id).Some? && |id| == 8
    ensures i < |allowed| && FirstAllowed(allowed, id) == Some(allowed[i])
    ensures allowed[i] != [] && NormalizeShortId(allowed[i]) == id
    ensures forall j :: 0 <= j < i ==> allowed[j] == [] || NormalizeShortId(allowed[j]) != id
  {
    hide NormalizeShortId;
    if allowed[0] != [] && TrimNull(NormalizeShortId(allowed[0])) == TrimNull(id) {
      TrimInjective(NormalizeShortId(allowed[0]), id);
      i := 0;
    } else {
      var rest := FirstIndex(allowed[1..], id);
      i := rest + 1;
      assert forall j :: 1 <= j < |allowed| ==> allowed[j] == allowed[1..][j - 1];
    }
  }

  /** A built token carries, and signs, the stamp and the normalized id. */
  lemma BuiltSigns(k: Crypto, ephemeral: Bytes, serverPublic: Bytes, shortId: Bytes, unix: nat, padding: Bytes)
    requires Lawful(k) && |padding| == 4
    ensures Build(k, ephemeral, serverPublic, shortId, unix, padding).Some? <==> k.ecdh(ephemeral, serverPublic).Some?
    ensures Build(k, ephemeral, serverPublic, shortId, unix, padding).Some? ==>
      var t := Build(k, ephemeral, serverPublic, shortId, unix, padding).value;
      && WellFormed(t) && |Serialize(t)| == 32
      && var token, id, secret := Serialize(t), NormalizeShortId(shortId), k.ecdh(ephemeral, serverPublic).value;
      && token[16..24] == id && token[28..32] == padding
      && (token[24] as int) * 0x100_0000 + (token[25] as int) * 0x1_0000 + (token[26] as int) * 0x100
           + token[27] as int == unix % 0x1_0000_0000
      && exists n: nat ::
           && n <= 8 && (n == 0 || id[n - 1] != 0) && (forall i :: n <= i < 8 ==> id[i] == 0)
           && token[..16] <= k.hmac(secret, CONTEXT + token[24..28] + id[..n])
  {
    hide U16, NormalizeShortId, Mac, Be32, Serialize;
    var built := Build(k, ephemeral, serverPublic, shortId, unix, padding);
    if built.Some? {
      MacSize(k, k.ecdh(ephemeral, serverPublic).value, built.value.timestamp, built.value.shortId);
      SerializedFields(built.value);
      var token := Serialize(built.value);
      Be32Back(token, 24);
      var n := TrimEnds(NormalizeShortId(shortId));
      MacIs(k, token, k.ecdh(ephemeral, serverPublic).value, n);
      assert token[16..24][..n] == NormalizeShortId(shortId)[..n];
    }
  }

  lemma MacSize(k: Crypto, secret: Bytes, timestamp: nat, shortId: Bytes)
    requires Lawful(k)
    ensures |Mac(k, secret, timestamp, shortId)| == 16
  {
    hide Be32, TrimNull;
  }

  /** The signed messages of two tokens differ unless both stamp and id agree. */
  lemma SignedDiffer(a: Bytes, b: Bytes, m: nat, n: nat)
    requires |a| == |b| == TOKEN_SIZE && EndsAt(a[16..24], m) && EndsAt(b[16..24], n)
    requires CONTEXT + a[24..28] + a[16..24][..m] == CONTEXT + b[24..28] + b[16..24][..n]
    ensures a[16..24] == b[16..24] && a[24..28] == b[24..28]
  {
    var x, y := CONTEXT + a[24..28] + a[16..24][..m], CONTEXT + b[24..28] + b[16..24][..n];
    var c := |CONTEXT|;
    assert x[c..c + 4] == a[24..28] && y[c..c + 4] == b[24..28];
    assert x[c + 4..] == a[16..24][..m] && y[c + 4..] == b[16..24][..n];
    SameTrimmed(a[16..24], b[16..24], m, n);
  }

  lemma SameTrimmed(a: Bytes, b: Bytes, m: nat, n: nat)
    requires |a| == |b| && EndsAt(a, m) && EndsAt(b, n) && a[..m] == b[..n]
    ensures a == b
  {
    assert m == |a[..m]| == |b[..n]| == n;
    forall i | 0 <= i < |a| ensures a[i] == b[i] {
      assert i < m ==> a[i] == a[..m][i] == b[..n][i];
    }
  }

  /**
    Stamp and id are authenticated: two accepted tokens with the same first 16 bytes and key but another
    stamp or id mean that the truncated HMAC takes the same value on two different messages.
   */
  lemma RestampNeedsCollision(k: Crypto, a: Bytes, b: Bytes, ephPublic: Bytes, serverPrivate: Bytes,
                              allowed: seq<Bytes>, window: int, unixA: nat, unixB: nat)
    requires Verify(k, a, ephPublic, serverPrivate, allowed, window, unixA).Some?
    requires Verify(k, b, ephPublic, serverPrivate, allowed, window, unixB).Some?
    requires a[..16] == b[..16] && a[16..28] != b[16..28]
    ensures k.ecdh(serverPrivate, ephPublic).Some?
    ensures var secret := k.ecdh(serverPrivate, ephPublic).value;
      exists x, y :: x != y && a[..16] <= k.hmac(secret, x) && a[..16] <= k.hmac(secret, y)
  {
    hide U16, NormalizeShortId, Verify, Mac;
    AcceptedByMac(k, a, ephPublic, serverPrivate, allowed, window, unixA);
    AcceptedByMac(k, b, ephPublic, serverPrivate, allowed, window, unixB);
    var secret := k.ecdh(serverPrivate, ephPublic).value;
    var m := TrimEnds(a[16..24]);
    var n := TrimEnds(b[16..24]);
    MacIs(k, a, secret, m);
    MacIs(k, b, secret, n);
    var x, y := CONTEXT + a[24..28] + a[16..24][..m], CONTEXT + b[24..28] + b[16..24][..n];
    assert a[16..28] == a[16..24] + a[24..28] && b[16..28] == b[16..24] + b[24..28];
    if x == y {
      SignedDiffer(a, b, m, n);
    }
    assert a[..16] <= k.hmac(secret, x) && a[..16] <= k.hmac(secret, y);
  }

  /** The four padding bytes play no part. */
  lemma PaddingIgnored(k: Crypto, token: Bytes, other: Bytes, ephPublic: Bytes, serverPrivate: Bytes,
                       allowed: seq<Bytes>, window: int, unix: nat)
    requires |token| == |other| == TOKEN_SIZE && token[..28] == other[..28]
    ensures Verify(k, token, ephPublic, serverPrivate, allowed, window, unix)
      == Verify(k, other, ephPublic, serverPrivate, allowed, window, unix)
  {
    hide U16;
    assert forall i :: 0 <= i < 28 ==> token[i] == token[..28][i] == other[i];
    assert token[..16] == other[..16] && token[16..24] == other[16..24];
  }
}

/** The REALITY server's ClientHello reader: record, handshake, extensions, key_share entries. */
module RealityHello {
  import opened ByteSeq
  import opened Streams
  import opened Vectors
  import opened TlsHello

  const AUTH_TOKEN_SIZE := 32

  datatype HelloError =
    | RecordTooShort | NotHandshake | IncompleteRecord | NotClientHello | HelloTruncated
    | SessionIdTruncated | CipherSuitesTruncated | CompressionTruncated | NoExtensions
    | ExtensionsTruncated | BadSessionIdLength | MissingKeyShare

  datatype Parsed = Parsed(sessionId: Bytes, key: Bytes) | Rejected(error: HelloError)

  // ---- What the two loops compute, on the bytes still unread ----

  /** First 32-byte X25519 key among the entries; a truncated entry ends the scan. */
  function FirstX25519(b: Bytes): Option<Bytes>
    decreases |b|
  {
    match GetItem(b)
    case None => None
    case Some(share) =>
      if share.typ == X25519 && |share.data| == 32 then Some(share.data) else FirstX25519(share.rest)
  }

  function KeyShareX25519(data: Bytes): Option<Bytes>
  {
    if |data| < 2 then None else FirstX25519(data[2..])
  }

  function Updated(typ: nat, data: Bytes, key: Bytes): Bytes
  {
    if typ == KEY_SHARE && KeyShareX25519(data).Some? then KeyShareX25519(data).value else key
  }

  /** The key after all extensions of `b`: each usable key_share overwrites the one before. */
  function LastKey(b: Bytes, key: Bytes): Bytes
    decreases |b|
  {
    match GetItem(b)
    case None => key
    case Some(ext) => LastKey(ext.rest, Updated(ext.typ, ext.data, key))
  }

  // ---- The parser as a function: each field is cut off the front of what remains ----

  function Parse(raw: Bytes): Parsed
  {
    if |raw| < 5 then Rejected(RecordTooShort)
    else if raw[0] != 0x16 then Rejected(NotHandshake)
    else match Get16(raw[3..])
      case None => Rejected(IncompleteRecord)
      case Some(record) => ParsePayload(record.field)
  }

  function ParsePayload(payload: Bytes): Parsed
  {
    if |payload| < 4 || payload[0] != 1 then Rejected(NotClientHello)
    else if |payload| < 39 then Rejected(HelloTruncated)
    else match Get8(payload[38..])
      case None => Rejected(SessionIdTruncated)
      case Some(id) => ParseLists(id.field, id.rest)
  }

  function ParseLists(sessionId: Bytes, b: Bytes): Parsed
  {
    if |b| < 2 then Rejected(CipherSuitesTruncated)
    else match Get16(b)
      case None => Rejected(CompressionTruncated)
      case Some(suites) => ParseAfterSuites(sessionId, suites.rest)
  }

  function ParseAfterSuites(sessionId: Bytes, b: Bytes): Parsed
  {
    if |b| < 1 then Rejected(CompressionTruncated)
    else match Get8(b)
      case None => Rejected(NoExtensions)
      case Some(comps) => ParseExtensions(sessionId, comps.rest)
  }

  function ParseExtensions(sessionId: Bytes, b: Bytes): Parsed
  {
    if |b| < 2 then Rejected(NoExtensions)
    else match Get16(b)
      case None => Rejected(ExtensionsTruncated)
      case Some(block) => Verdict(sessionId, LastKey(block.field, []))
  }

  function Verdict(sessionId: Bytes, key: Bytes): Parsed
  {
    if |sessionId| != AUTH_TOKEN_SIZE then Rejected(BadSessionIdLength)
    else if |key| != 32 then Rejected(MissingKeyShare)
    else Parsed(sessionId, key)
  }

  // ---- The code ----

  method ParseKeyShareX25519(data: Bytes) returns (key: Option<Bytes>)
    ensures key == KeyShareX25519(data)
    ensures key.Some? ==> |key.value| == 32
  {
    hide GetItem, U16;
    if |data| < 2 {
      return None;
    }
    var pos := 2;
    assert data[pos..] == data[pos..|data|];
    ShortHasNoItem();
    while pos + 4 <= |data|
      invariant 2 <= pos <= |data|
      invariant KeyShareX25519(data) == FirstX25519(data[pos..|data|])
    {
      ItemAt(data, pos, |data|);
      var group := U16At(data, pos);
      var keyLen := U16At(data, pos + 2);
      pos := pos + 4;
      if pos + keyLen > |data| {
        break;
      }
      var k := data[pos..pos + keyLen];
      pos := pos + keyLen;
      if group == X25519 && |k| == 32 {
        return Some(k);
      }
    }
    return None;
  }

  /** The extension loop over payload[start..extEnd]. */
  method ScanExtensions(payload: Bytes, start: nat, extEnd: nat) returns (key: Bytes)
    requires start <= extEnd <= |payload|
    ensures key == LastKey(payload[start..extEnd], [])
  {
    hide GetItem, KeyShareX25519, U16;
    var pos := start;
    key := [];
    ShortHasNoItem();
    while pos + 4 <= extEnd
      invariant start <= pos <= extEnd
      invariant LastKey(payload[start..extEnd], []) == LastKey(payload[pos..extEnd], key)
    {
      ItemAt(payload, pos, extEnd);
      var extType := U16At(payload, pos);
      var extLen := U16At(payload, pos + 2);
      pos := pos + 4;
      if pos + extLen > extEnd {
        break;
      }
      var extData := payload[pos..pos + extLen];
      pos := pos + extLen;
      if extType == KEY_SHARE {
        var k := ParseKeyShareX25519(extData);
        if k.Some? {
          key := k.value;
        }
      }
    }
  }

  /** From the cipher suites to the end, starting at payload[start]. */
  method ParseListsAt(sessionId: Bytes, payload: Bytes, start: nat) returns (r: Parsed)
    requires start <= |payload|
    ensures r == ParseLists(sessionId, payload[start..|payload|])
  {
    hide Get8, Get16;
    var pos, end := start, |payload|;
    if |payload| < pos + 2 { return Rejected(CipherSuitesTruncated); }
    Vector16At(payload, pos, end);
    var cipherLen := U16At(payload, pos);
    pos := pos + 2 + cipherLen;
    if |payload| < pos + 1 { return Rejected(CompressionTruncated); }
    Vector8At(payload, pos, end);
    var compLen: nat := payload[pos];
    pos := pos + 1 + compLen;
    if |payload| < pos + 2 { return Rejected(NoExtensions); }
    Vector16At(payload, pos, end);
    var extTotalLen := U16At(payload, pos);
    pos := pos + 2;
    var extEnd := pos + extTotalLen;
    if extEnd > |payload| { return Rejected(ExtensionsTruncated); }
    var key := ScanExtensions(payload, pos, extEnd);
    if |sessionId| != AUTH_TOKEN_SIZE { return Rejected(BadSessionIdLength); }
    if |key| != 32 { return Rejected(MissingKeyShare); }
    return Parsed(sessionId, key);
  }

  /** Extract the session id and the X25519 key share from one TLS record. */
  method ParseClientHelloAuth(raw: Bytes) returns (r: Parsed)
    ensures r == Parse(raw)
  {
    hide Get8, Get16;
    if |raw| < 5 { return Rejected(RecordTooShort); }
    if raw[0] != 0x16 { return Rejected(NotHandshake); }
    assert raw[3..] == raw[3..|raw|];
    Vector16At(raw, 3, |raw|);
    var recordLen := U16At(raw, 3);
    if recordLen + 5 > |raw| { return Rejected(IncompleteRecord); }

    var payload := raw[5..5 + recordLen];
    if |payload| < 4 || payload[0] != 1 { return Rejected(NotClientHello); }
    var pos := 4;
    if |payload| < pos + 2 + 32 + 1 { return Rejected(HelloTruncated); }
    pos := pos + 2;
    pos := pos + 32;
    assert payload[pos..] == payload[pos..|payload|];
    Vector8At(payload, pos, |payload|);
    var sessLen: nat := payload[pos];
    pos := pos + 1;
    if |payload| < pos + sessLen { return Rejected(SessionIdTruncated); }
    var sessionId := payload[pos..pos + sessLen];
    pos := pos + sessLen;
    r := ParseListsAt(sessionId, payload, pos);
  }

  lemma RecordIs(header: Bytes, handshake: Bytes)
    requires header == [0x16, 3, 1] + Be16(|handshake|)
    ensures header + handshake == Record(handshake, [])
  {
    hide Be16;
  }

  /** Fill the record array around a handshake message. */
  method WrapTlsHandshakeRecord(handshake: Bytes) returns (record: Bytes)
    ensures record == Record(handshake, [])
  {
    var a := new Byte[5 + |handshake|](_ => 0);
    a[0], a[1], a[2] := 0x16, 3, 1;
    a[3] := Low(|handshake| / 256);
    a[4] := Low(|handshake|);
    ghost var header := a[..5];
    assert header == [0x16, 3, 1] + Be16(|handshake|);
    hide *;
    CopyInto(a, 5, handshake);
    record := a[..];
    assert record == record[..5] + record[5..];
    RecordIs(header, handshake);
  }

  function Zeros(n: nat): Bytes { seq(n, _ => 0) }

  /**
    One record off the connection. The bytes handed on are exactly the bytes consumed, except
    that a buffer the connection could not fill is handed on at full length, zero-padded.
   */
  method ReadClientHelloRecord(source: Source) returns (raw: Bytes, ok: bool)
    modifies source
    ensures ok <==> RecordReady(old(source.incoming))
    ensures ok ==> old(source.incoming) == raw + source.incoming
    ensures ok ==> |raw| == 5 + U16At(old(source.incoming), 3)
    ensures |source.incoming| <= |old(source.incoming)|
    ensures !ok ==> PaddedPrefix(raw, old(source.incoming), |source.incoming|)
  {
    ghost var s := source.incoming;
    var header, full := ReadFull(source, 5);
    if !full {
      return header + Zeros(5 - |header|), false;
    }
    assert header == s[..5];
    if header[0] != 0x16 { return header, false; }
    var recordLen := U16At(header, 3);
    if recordLen <= 0 || recordLen > 16384 { return header, false; }
    var record, complete := ReadFull(source, recordLen);
    assert s == header + record + source.incoming;
    if !complete {
      return header + (record + Zeros(recordLen - |record|)), false;
    }
    return header + record, true;
  }

  /** `raw` is what was consumed of `s` before `left` bytes remained, then zeros if `s` ran out. */
  ghost predicate PaddedPrefix(raw: Bytes, s: Bytes, left: nat)
    requires left <= |s|
  {
    && 5 <= |raw| && |s| - left <= |raw|
    && raw[..|s| - left] == s[..|s| - left]
    && (forall i :: |s| - left <= i < |raw| ==> raw[i] == 0)
    && (|s| - left < |raw| ==> left == 0)
  }

  ghost predicate RecordReady(s: Bytes)
  {
    5 <= |s| && s[0] == 0x16 && 0 < U16At(s, 3) <= 16384 && 5 + U16At(s, 3) <= |s|
  }
}

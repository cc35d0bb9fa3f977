/** The REALITY parser against RFC 8446: it inverts the serializer, and accepts nothing else. */
module RealityHelloProofs {
  import opened ByteSeq
  import opened Streams
  import opened Vectors
  import opened TlsHello
  import opened RealityHello

  // ---- The answer, read off the hello rather than off its bytes ----

  predicate Usable(s: Share) { s.group == X25519 && |s.key| == 32 }

  function FirstUsable(shares: seq<Share>): Option<Bytes>
  {
    if shares == [] then None
    else if Usable(shares[0]) then Some(shares[0].key)
    else FirstUsable(shares[1..])
  }

  /** The first usable share of the last key_share extension that has one, else `key`. */
  function OfferedKey(es: seq<Extension>, key: Bytes): Bytes
  {
    if es == [] then key
    else OfferedKey(es[1..],
      if es[0].KeyShare? && FirstUsable(es[0].shares).Some? then FirstUsable(es[0].shares).value else key)
  }

  // ---- The two loops invert the two lists ----

  lemma {:induction false} SharesInvert(shares: seq<Share>)
    requires forall i :: 0 <= i < |shares| ==> ValidShare(shares[i])
    ensures FirstX25519(SharesBytes(shares)) == FirstUsable(shares)
  {
    if shares != [] {
      hide PutItem, GetItem;
      GetItemPutItem(shares[0].group, shares[0].key, SharesBytes(shares[1..]));
      SharesInvert(shares[1..]);
    } else {
      assert GetItem(SharesBytes(shares)).None?;
    }
  }

  lemma KeyShareInverts(shares: seq<Share>)
    requires forall i :: 0 <= i < |shares| ==> ValidShare(shares[i])
    ensures KeyShareX25519(Put16(SharesBytes(shares), [])) == FirstUsable(shares)
  {
    hide Be16;
    assert Put16(SharesBytes(shares), [])[2..] == SharesBytes(shares);
    SharesInvert(shares);
  }

  lemma ItemFits(typ: nat, data: Bytes, rest: Bytes)
    ensures |PutItem(typ, data, rest)| == 4 + |data| + |rest|
  {
  }

  lemma {:induction false} ExtensionsInvert(es: seq<Extension>, key: Bytes)
    requires forall i :: 0 <= i < |es| ==> ValidExtension(es[i])
    requires |ExtensionsBytes(es)| < 65536
    ensures LastKey(ExtensionsBytes(es), key) == OfferedKey(es, key)
    decreases |es|
  {
    if es == [] {
      assert GetItem(ExtensionsBytes(es)).None?;
      return;
    }
    hide PutItem, GetItem, Put16, KeyShareX25519;
    var e, rest := es[0], ExtensionsBytes(es[1..]);
    ItemFits(Type(e), Body(e), rest);
    GetItemPutItem(Type(e), Body(e), rest);
    if e.KeyShare? {
      KeyShareInverts(e.shares);
    }
    ExtensionsInvert(es[1..], Updated(Type(e), Body(e), key));
  }

  // ---- Down the nesting: lists, payload, record ----

  lemma ListsInvert(sid: Bytes, suites: Bytes, comps: Bytes, block: Bytes)
    requires |suites| < 65536 && |comps| < 256 && |block| < 65536
    ensures ParseLists(sid, Put16(suites, Put8(comps, Put16(block, [])))) == Verdict(sid, LastKey(block, []))
  {
    Get16Put16(block, []);
    Get8Put8(comps, Put16(block, []));
    Get16Put16(suites, Put8(comps, Put16(block, [])));
    hide Be16, Get8, Get16, LastKey;
  }

  lemma VectorSizes(h: ClientHello)
    ensures |HelloVectors(h)| ==
      6 + |h.sessionId| + |h.cipherSuites| + |h.compressions| + |ExtensionsBytes(h.extensions)|
  {
    hide Be16;
  }

  lemma PayloadInverts(h: ClientHello)
    requires Valid(h)
    ensures ParsePayload(Handshake(h)) == Verdict(h.sessionId, OfferedKey(h.extensions, []))
  {
    VectorSizes(h);
    var x := ExtensionsBytes(h.extensions);
    ExtensionsInvert(h.extensions, []);
    ListsInvert(h.sessionId, h.cipherSuites, h.compressions, x);
    Get8Put8(h.sessionId, Put16(h.cipherSuites, Put8(h.compressions, Put16(x, []))));
    hide Put8, Put16, Be16, Get8, ExtensionsBytes, ParseLists, Verdict;
    assert Handshake(h)[38..] == HelloVectors(h);
    assert Handshake(h)[0] == 1;
  }

  /** The parser inverts the RFC 8446 serializer, whatever follows the record. */
  lemma ParserInvertsSerializer(h: ClientHello, trailing: Bytes)
    requires Valid(h)
    ensures Parse(Record(Handshake(h), trailing)) == Verdict(h.sessionId, OfferedKey(h.extensions, []))
  {
    var p := Handshake(h);
    PayloadInverts(h);
    Get16Put16(p, trailing);
    hide Handshake, Get16, ParsePayload, Verdict, Be16;
    assert Record(p, trailing)[3..] == Put16(p, trailing);
  }

  lemma {:induction false} OnlyKeyShareDecides(es: seq<Extension>, i: nat, key: Bytes)
    requires i < |es| && es[i].KeyShare? && FirstUsable(es[i].shares).Some?
    requires forall j :: 0 <= j < |es| && j != i ==> !es[j].KeyShare?
    ensures OfferedKey(es, key) == FirstUsable(es[i].shares).value
  {
    if i > 0 {
      OnlyKeyShareDecides(es[1..], i - 1, key);
    } else {
      NoKeyShareKeeps(es[1..], FirstUsable(es[0].shares).value);
    }
  }

  lemma {:induction false} NoKeyShareKeeps(es: seq<Extension>, key: Bytes)
    requires forall j :: 0 <= j < |es| ==> !es[j].KeyShare?
    ensures OfferedKey(es, key) == key
  {
    if es != [] {
      NoKeyShareKeeps(es[1..], key);
    }
  }

  lemma {:induction false} FirstUsableIs(shares: seq<Share>, k: nat)
    requires k < |shares| && Usable(shares[k])
    requires forall j :: 0 <= j < k ==> !Usable(shares[j])
    ensures FirstUsable(shares) == Some(shares[k].key)
  {
    if k > 0 {
      FirstUsableIs(shares[1..], k - 1);
    }
  }

  /** Extension i is the only key_share, and its entry k the first usable one. */
  predicate OffersKey(h: ClientHello, i: nat, k: nat)
  {
    && i < |h.extensions| && h.extensions[i].KeyShare?
    && (forall j :: 0 <= j < |h.extensions| && j != i ==> !h.extensions[j].KeyShare?)
    && k < |h.extensions[i].shares| && Usable(h.extensions[i].shares[k])
    && (forall j :: 0 <= j < k ==> !Usable(h.extensions[i].shares[j]))
  }

  /**
    The client's hello as the server sees it: a 32-byte session id and one key_share extension
    (number i) whose first usable X25519 entry is number k come back exactly.
   */
  lemma AuthFieldsRecovered(h: ClientHello, i: nat, k: nat, trailing: Bytes)
    requires Valid(h) && |h.sessionId| == AUTH_TOKEN_SIZE
    requires OffersKey(h, i, k)
    ensures Parse(Record(Handshake(h), trailing)) == Parsed(h.sessionId, h.extensions[i].shares[k].key)
  {
    ParserInvertsSerializer(h, trailing);
    FirstUsableIs(h.extensions[i].shares, k);
    OnlyKeyShareDecides(h.extensions, i, []);
  }

  /** Reading the wrapped hello off a connection, in any chunks, and parsing it. */
  method ReadAndParse(source: Source, h: ClientHello, i: nat, k: nat) returns (r: Parsed)
    requires Valid(h) && |h.sessionId| == AUTH_TOKEN_SIZE
    requires OffersKey(h, i, k)
    requires Record(Handshake(h), []) <= source.incoming
    modifies source
    ensures r == Parsed(h.sessionId, h.extensions[i].shares[k].key)
    ensures old(source.incoming) == Record(Handshake(h), []) + source.incoming
  {
    ghost var s := source.incoming;
    WholeRecordReady(Handshake(h), s);
    var raw, ok := ReadClientHelloRecord(source);
    AuthFieldsRecovered(h, i, k, []);
    hide *;
    assert raw == s[..|raw|];
    r := ParseClientHelloAuth(raw);
  }

  lemma WholeRecordReady(p: Bytes, s: Bytes)
    requires 0 < |p| <= 16384 && Record(p, []) <= s
    ensures RecordReady(s) && s[..5 + U16At(s, 3)] == Record(p, [])
  {
    Be16Value(|p|);
    hide Be16;
    var rec := Record(p, []);
    assert s[3] == rec[3] == Be16(|p|)[0] && s[4] == rec[4] == Be16(|p|)[1];
  }

  // ---- The converse: what acceptance of arbitrary bytes means ----

  datatype RawExtension = RawExtension(typ: nat, data: Bytes)

  function RawBytes(es: seq<RawExtension>, junk: Bytes): Bytes
  {
    if es == [] then junk else PutItem(es[0].typ, es[0].data, RawBytes(es[1..], junk))
  }

  predicate RawWidths(es: seq<RawExtension>)
  {
    forall i :: 0 <= i < |es| ==> es[i].typ < 65536 && |es[i].data| < 65536
  }

  function RawKey(es: seq<RawExtension>, key: Bytes): Bytes
  {
    if es == [] then key else RawKey(es[1..], Updated(es[0].typ, es[0].data, key))
  }

  /** Any extension block is a list of well-formed extensions followed by an unreadable rest. */
  lemma {:induction false} BlockDecomposes(b: Bytes, key: Bytes) returns (es: seq<RawExtension>, junk: Bytes)
    ensures b == RawBytes(es, junk) && RawWidths(es) && GetItem(junk).None?
    ensures LastKey(b, key) == RawKey(es, key)
    decreases |b|
  {
    hide PutItem, Updated;
    if GetItem(b).None? {
      return [], b;
    }
    var ext := GetItem(b).value;
    PutItemGetItem(b);
    var tail;
    tail, junk := BlockDecomposes(ext.rest, Updated(ext.typ, ext.data, key));
    es := [RawExtension(ext.typ, ext.data)] + tail;
    assert es[1..] == tail;
  }

  /**
    Acceptance pins the bytes down: the record header, a ClientHello header, a 32-byte session id,
    the three lists, a list of extensions deciding the key, and slack no field accounts for.
   */
  lemma AcceptedShape(raw: Bytes)
    returns (fixed: Bytes, suites: Bytes, comps: Bytes, es: seq<RawExtension>, junk: Bytes, slack: Bytes, after: Bytes)
    requires Parse(raw).Parsed?
    ensures var r := Parse(raw);
      && raw == raw[..3] + Put16(fixed + Put8(r.sessionId,
                  Put16(suites, Put8(comps, Put16(RawBytes(es, junk), slack)))), after)
      && raw[0] == 0x16 && |fixed| == 38 && fixed[0] == 1
      && |r.sessionId| == 32 && |comps| < 256 && RawWidths(es) && GetItem(junk).None?
      && |r.key| == 32 && r.key == RawKey(es, [])
  {
    hide Put8, Put16;
    var record := Get16(raw[3..]).value;
    Put16Get16(raw[3..]);
    after := record.rest;
    assert raw == raw[..3] + raw[3..];
    fixed := record.field[..38];
    var id := Get8(record.field[38..]).value;
    Put8Get8(record.field[38..]);
    assert record.field == fixed + record.field[38..];
    suites, comps, es, junk, slack := ListsShape(id.field, id.rest);
  }

  lemma ListsShape(sid: Bytes, b: Bytes)
    returns (suites: Bytes, comps: Bytes, es: seq<RawExtension>, junk: Bytes, slack: Bytes)
    requires ParseLists(sid, b).Parsed?
    ensures b == Put16(suites, Put8(comps, Put16(RawBytes(es, junk), slack)))
    ensures |sid| == 32 && |comps| < 256 && RawWidths(es) && GetItem(junk).None?
    ensures ParseLists(sid, b) == Parsed(sid, RawKey(es, [])) && |RawKey(es, [])| == 32
  {
    hide Put8, Put16, Get8, Get16;
    Put16Get16(b);
    suites := Get16(b).value.field;
    var c := Get16(b).value.rest;
    Put8Get8(c);
    comps := Get8(c).value.field;
    var d := Get8(c).value.rest;
    Put16Get16(d);
    slack := Get16(d).value.rest;
    es, junk := BlockDecomposes(Get16(d).value.field, []);
  }
}

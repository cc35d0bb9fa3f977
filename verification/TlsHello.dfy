/**
  The TLS ClientHello as RFC 8446 defines it: section 4.1.2 (ClientHello), section 4.2
  (extensions), section 4.2.8 (key_share) and section 5.1 (record layer). This is the reference
  the tunnel's own parsers are measured against.
 */
module TlsHello {
  import opened ByteSeq
  import opened Vectors

  const X25519: nat := 0x001d
  const SERVER_NAME: nat := 0x0000
  const KEY_SHARE: nat := 0x0033

  datatype Share = Share(group: nat, key: Bytes)

  datatype Extension =
    | ServerName(host: Bytes)
    | KeyShare(shares: seq<Share>)
    | Other(typ: nat, data: Bytes)

  datatype ClientHello = ClientHello(
    version: Bytes,
    random: Bytes,
    sessionId: Bytes,
    cipherSuites: Bytes,
    compressions: Bytes,
    extensions: seq<Extension>)

  function SharesBytes(shares: seq<Share>): Bytes
  {
    if shares == [] then [] else PutItem(shares[0].group, shares[0].key, SharesBytes(shares[1..]))
  }

  function Type(e: Extension): nat
  {
    match e
    case ServerName(_) => SERVER_NAME
    case KeyShare(_) => KEY_SHARE
    case Other(typ, _) => typ
  }

  function Body(e: Extension): Bytes
  {
    match e
    case ServerName(host) => Put16([0] + Put16(host, []), [])
    case KeyShare(shares) => Put16(SharesBytes(shares), [])
    case Other(_, data) => data
  }

  function ExtensionsBytes(es: seq<Extension>): Bytes
  {
    if es == [] then [] else PutItem(Type(es[0]), Body(es[0]), ExtensionsBytes(es[1..]))
  }

  /** Everything from the session id on: four vectors, one behind the other. */
  function HelloVectors(h: ClientHello): Bytes
  {
    Put8(h.sessionId, Put16(h.cipherSuites, Put8(h.compressions, Put16(ExtensionsBytes(h.extensions), []))))
  }

  /** msg_type client_hello(1), uint24 length, legacy_version, random. */
  function FixedPart(h: ClientHello): Bytes
  {
    var n := 34 + |HelloVectors(h)|;
    [1, Low(n / 65536)] + Be16(n) + h.version + h.random
  }

  function Handshake(h: ClientHello): Bytes { FixedPart(h) + HelloVectors(h) }

  predicate ValidShare(s: Share) { s.group < 65536 && |s.key| < 65536 }

  predicate ValidExtension(e: Extension)
  {
    match e
    case ServerName(host) => true
    case KeyShare(shares) => forall i :: 0 <= i < |shares| ==> ValidShare(shares[i])
    case Other(typ, _) => typ < 65536 && typ != SERVER_NAME && typ != KEY_SHARE
  }

  /** Field widths; the nested lengths then follow from the bound on one record's plaintext. */
  ghost predicate Valid(h: ClientHello)
  {
    && |h.version| == 2
    && |h.random| == 32
    && |h.sessionId| <= 32
    && |h.compressions| < 256
    && (forall i :: 0 <= i < |h.extensions| ==> ValidExtension(h.extensions[i]))
    && |Handshake(h)| <= 16384
  }

  /** The 0x0301 handshake record around a handshake message, in front of what follows. */
  function Record(handshake: Bytes, rest: Bytes): Bytes { [0x16, 3, 1] + Put16(handshake, rest) }
}

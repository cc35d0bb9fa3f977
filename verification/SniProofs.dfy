/** What replacing the server name keeps, on any bytes and on real ClientHellos. */
module SniProofs {
  import opened ByteSeq
  import opened Vectors
  import opened TlsHello
  import opened SniSpoof
  import RealityHello
  import RealityHelloProofs

  // ---- On any bytes: the search only looks in front of what is overwritten ----

  predicate Agree(a: Bytes, b: Bytes, m: nat) { |a| == |b| && m <= |a| && a[..m] == b[..m] }

  lemma AgreeAt(a: Bytes, b: Bytes, m: nat)
    requires Agree(a, b, m)
    ensures forall i :: 0 <= i < m ==> a[i] == b[i]
  {
    forall i | 0 <= i < m ensures a[i] == b[i] {
      assert a[i] == a[..m][i];
    }
  }

  lemma ExtensionsAgree(a: Bytes, b: Bytes, m: nat)
    requires Agree(a, b, m) && Extensions(a).Some? && Extensions(a).value.0 <= m
    ensures Extensions(b) == Extensions(a)
  {
    hide U16;
    AgreeAt(a, b, m);
  }

  lemma {:induction false} SearchAgrees(a: Bytes, b: Bytes, m: nat, offset: nat, end: nat)
    requires Agree(a, b, m) && 0 <= Search(a, offset, end) && Search(a, offset, end) + 4 <= m
    ensures Search(b, offset, end) == Search(a, offset, end)
    decreases |a| - offset
  {
    hide U16;
    AgreeAt(a, b, m);
    if U16At(a, offset) != 0 {
      SearchAgrees(a, b, m, offset + 4 + U16At(a, offset + 2), end);
    }
  }

  lemma OffsetAgrees(a: Bytes, b: Bytes, m: nat)
    requires Agree(a, b, m) && 0 <= SniOffset(a) && SniOffset(a) + 4 <= m
    ensures SniOffset(b) == SniOffset(a)
  {
    hide Extensions;
    var (start, end) := Extensions(a).value;
    ExtensionsAgree(a, b, m);
    SearchAgrees(a, b, m, start, end);
  }

  /**
    Replacement keeps the length, changes only the located host name field, which then holds the
    fitted name, and leaves the field where a second search finds it again.
   */
  lemma ReplacedKeeps(data: Bytes, name: Bytes)
    ensures var r := Replaced(data, name);
      && |r| == |data|
      && SniOffset(r) == SniOffset(data) && HostField(r) == HostField(data)
      && (HostField(data).None? ==> r == data)
      && (HostField(data).Some? ==>
            var (pos, n) := HostField(data).value;
            r[..pos] == data[..pos] && r[pos..pos + n] == Fitted(name, n) && r[pos + n..] == data[pos + n..])
  {
    hide SniOffset, U16;
    if HostField(data).Some? {
      var (pos, n) := HostField(data).value;
      var r := Replaced(data, name);
      assert r[..pos] == data[..pos];
      OffsetAgrees(data, r, pos);
      AgreeAt(data, r, pos);
    }
  }

  /** A later replacement hides an earlier one; in particular replacing twice changes nothing more. */
  lemma LastReplacementWins(data: Bytes, first: Bytes, second: Bytes)
    ensures Replaced(Replaced(data, first), second) == Replaced(data, second)
  {
    hide HostField, Fitted;
    ReplacedKeeps(data, first);
  }

  // ---- On a ClientHello: the edit is the edit of the hello ----

  lemma OverwriteRight(a: Bytes, b: Bytes, k: nat, x: Bytes)
    requires k + |x| <= |b|
    ensures Overwrite(a + b, |a| + k, x) == a + Overwrite(b, k, x)
  {
  }

  lemma OverwriteLeft(a: Bytes, b: Bytes, k: nat, x: Bytes)
    requires k + |x| <= |a|
    ensures Overwrite(a + b, k, x) == Overwrite(a, k, x) + b
  {
  }

  /** Bytes of the extensions in front of number i. */
  function Ahead(es: seq<Extension>, i: nat): nat
    requires i <= |es|
  {
    if i == 0 then 0 else 4 + |Body(es[0])| + Ahead(es[1..], i - 1)
  }

  predicate FirstServerName(es: seq<Extension>, i: nat)
  {
    i < |es| && es[i].ServerName? && forall j :: 0 <= j < i ==> !es[j].ServerName?
  }

  function Renamed(es: seq<Extension>, i: nat, host: Bytes): seq<Extension>
    requires i < |es|
  {
    es[i := ServerName(host)]
  }

  /** A server_name extension written out flat. */
  function NameBytes(host: Bytes, rest: Bytes): Bytes
  {
    Be16(0) + Be16(|host| + 5) + Be16(|host| + 3) + [0] + Be16(|host|) + host + rest
  }

  lemma NameItem(host: Bytes, rest: Bytes)
    ensures PutItem(0, Body(ServerName(host)), rest) == NameBytes(host, rest)
    ensures |Body(ServerName(host))| == |host| + 5
  {
    hide Be16;
    var inner := [0] + (Be16(|host|) + host);
    assert [0] + Put16(host, []) == inner;
    var body := Be16(|host| + 3) + inner;
    assert Body(ServerName(host)) == body;
    assert Put16(body, rest) == Be16(|host| + 5) + body + rest;
    FlatParts(Be16(0), Be16(|host| + 5), Be16(|host| + 3), Be16(|host|), host, rest);
  }

  lemma FlatParts(a: Bytes, b: Bytes, c: Bytes, d: Bytes, host: Bytes, rest: Bytes)
    ensures a + (b + (c + ([0] + (d + host))) + rest) == a + b + c + [0] + d + host + rest
  {
  }

  lemma NameOverwritten(before: Bytes, after: Bytes, rest: Bytes)
    requires |before| == |after|
    ensures |NameBytes(before, rest)| == 9 + |before| + |rest|
    ensures NameBytes(after, rest) == Overwrite(NameBytes(before, rest), 9, after)
  {
    hide Be16;
    var front := Be16(0) + Be16(|after| + 5) + Be16(|after| + 3) + [0] + Be16(|after|);
    assert NameBytes(before, rest) == front + (before + rest);
    assert NameBytes(after, rest) == front + (after + rest);
    OverwriteRight(front, before + rest, 0, after);
  }

  lemma ItemParts(typ: nat, data: Bytes, rest: Bytes)
    ensures PutItem(typ, data, rest) == (Be16(typ) + Be16(|data|) + data) + rest
    ensures |Be16(typ) + Be16(|data|) + data| == 4 + |data|
  {
    hide Be16;
  }

  lemma {:induction false} ExtensionsSized(es: seq<Extension>, i: nat)
    requires i < |es|
    ensures Ahead(es, i) + 4 + |Body(es[i])| <= |ExtensionsBytes(es)|
  {
    hide PutItem, Body;
    ItemParts(Type(es[0]), Body(es[0]), ExtensionsBytes(es[1..]));
    if i > 0 {
      ExtensionsSized(es[1..], i - 1);
    }
  }

  /** Writing the host bytes in place is the same as serializing the renamed extension. */
  lemma {:induction false} ExtensionsRenamed(es: seq<Extension>, i: nat, host: Bytes)
    requires i < |es| && es[i].ServerName? && |host| == |es[i].host|
    ensures Ahead(es, i) + 9 + |host| <= |ExtensionsBytes(es)|
    ensures ExtensionsBytes(Renamed(es, i, host)) == Overwrite(ExtensionsBytes(es), Ahead(es, i) + 9, host)
  {
    hide Be16, PutItem, Body, Overwrite, NameBytes;
    var rest := ExtensionsBytes(es[1..]);
    var es' := Renamed(es, i, host);
    if i == 0 {
      var old' := es[0].host;
      NameItem(old', rest);
      NameItem(host, rest);
      assert es'[1..] == es[1..];
      NameOverwritten(old', host, rest);
    } else {
      ExtensionsRenamed(es[1..], i - 1, host);
      assert es'[0] == es[0] && es'[1..] == Renamed(es[1..], i - 1, host);
      var item := Be16(Type(es[0])) + Be16(|Body(es[0])|) + Body(es[0]);
      ItemParts(Type(es[0]), Body(es[0]), rest);
      ItemParts(Type(es[0]), Body(es[0]), ExtensionsBytes(es'[1..]));
      OverwriteRight(item, rest, Ahead(es[1..], i - 1) + 9, host);
    }
  }

  /** Where the extensions block of h starts in its record. */
  function BlockStart(h: ClientHello): nat
  {
    49 + |h.sessionId| + |h.cipherSuites| + |h.compressions|
  }

  /** Everything of the record in front of the extensions, given the block's size. */
  function Front(h: ClientHello): Bytes
  {
    [0x16, 3, 1] + Be16(|Handshake(h)|) + FixedPart(h)
    + ([Low(|h.sessionId|)] + h.sessionId) + (Be16(|h.cipherSuites|) + h.cipherSuites)
    + ([Low(|h.compressions|)] + h.compressions) + Be16(|ExtensionsBytes(h.extensions)|)
  }

  lemma RecordParts(h: ClientHello, trailing: Bytes)
    requires |h.version| == 2 && |h.random| == 32
    ensures Record(Handshake(h), trailing) == Front(h) + (ExtensionsBytes(h.extensions) + trailing)
    ensures |Front(h)| == BlockStart(h)
    ensures |Handshake(h)| == BlockStart(h) - 5 + |ExtensionsBytes(h.extensions)|
  {
    hide Be16, ExtensionsBytes;
  }

  function RenamedHello(h: ClientHello, i: nat, host: Bytes): ClientHello
    requires i < |h.extensions|
  {
    h.(extensions := Renamed(h.extensions, i, host))
  }

  lemma RecordRenamed(h: ClientHello, i: nat, host: Bytes, trailing: Bytes)
    requires Valid(h) && i < |h.extensions| && h.extensions[i].ServerName? && |host| == |h.extensions[i].host|
    ensures var data, pos := Record(Handshake(h), trailing), BlockStart(h) + Ahead(h.extensions, i) + 9;
      && pos + |host| <= |data|
      && Record(Handshake(RenamedHello(h, i, host)), trailing) == Overwrite(data, pos, host)
  {
    hide Be16, ExtensionsBytes, Handshake, FixedPart, HelloVectors, Front, Record, Overwrite, Ahead;
    var h' := RenamedHello(h, i, host);
    var x, k := ExtensionsBytes(h.extensions), Ahead(h.extensions, i) + 9;
    ExtensionsRenamed(h.extensions, i, host);
    RecordParts(h, trailing);
    RecordParts(h', trailing);
    SameFront(h, h');
    OverwriteRight(Front(h), x + trailing, k, host);
    OverwriteLeft(x, trailing, k, host);
  }

  lemma SameFront(h: ClientHello, h': ClientHello)
    requires h' == h.(extensions := h'.extensions)
    requires |ExtensionsBytes(h'.extensions)| == |ExtensionsBytes(h.extensions)|
    ensures Front(h') == Front(h)
  {
    hide Be16, ExtensionsBytes;
    assert |HelloVectors(h')| == |HelloVectors(h)|;
  }

  // ---- And the search finds that field ----

  lemma LengthAt(a: Bytes, n: nat, b: Bytes)
    requires n < 65536
    ensures U16At(a + Be16(n) + b, |a|) == n
  {
    hide Be16, U16;
    Be16Value(n);
    var s := a + Be16(n) + b;
    assert s[|a|] == Be16(n)[0] && s[|a| + 1] == Be16(n)[1];
  }

  lemma FrontFound(a: Bytes, sid: Bytes, suites: Bytes, comps: Bytes, size: nat, rest: Bytes)
    requires |a| == 43 && |sid| < 256 && |suites| < 65536 && |comps| < 256 && size < 65536 && rest != []
    ensures var start := 49 + |sid| + |suites| + |comps|;
      Extensions(a + ([Low(|sid|)] + sid) + (Be16(|suites|) + suites) + ([Low(|comps|)] + comps) + Be16(size) + rest)
        == Some((start, start + size))
  {
    hide Be16, U16;
    var b, c, d := [Low(|sid|)] + sid, Be16(|suites|) + suites, [Low(|comps|)] + comps;
    var data := a + b + c + d + Be16(size) + rest;
    assert data[43] == |sid|;
    LengthAt(a + b, |suites|, suites + d + Be16(size) + rest);
    assert data == (a + b) + Be16(|suites|) + (suites + d + Be16(size) + rest);
    LengthAt(a + b + c + d, size, rest);
    assert data[|a + b + c|] == d[0] == |comps|;
  }

  lemma ExtensionsFound(h: ClientHello, trailing: Bytes)
    requires Valid(h) && h.extensions != []
    ensures Extensions(Record(Handshake(h), trailing)) ==
      Some((BlockStart(h), BlockStart(h) + |ExtensionsBytes(h.extensions)|))
  {
    hide Be16, ExtensionsBytes, Extensions, Handshake, FixedPart, HelloVectors, Record;
    RecordParts(h, trailing);
    ExtensionsSized(h.extensions, 0);
    FixedSize(h);
    var a := [0x16, 3, 1] + Be16(|Handshake(h)|) + FixedPart(h);
    var x := ExtensionsBytes(h.extensions);
    FrontFound(a, h.sessionId, h.cipherSuites, h.compressions, |x|, x + trailing);
  }

  lemma FixedSize(h: ClientHello)
    requires |h.version| == 2 && |h.random| == 32
    ensures |FixedPart(h)| == 38
  {
    hide Be16;
  }

  /** One extension at data[o..]. */
  lemma ItemHere(data: Bytes, o: nat, typ: nat, body: Bytes, rest: Bytes)
    requires o <= |data| && data[o..] == PutItem(typ, body, rest) && typ < 65536 && |body| < 65536
    ensures o + 4 + |body| <= |data| && U16At(data, o) == typ && U16At(data, o + 2) == |body|
    ensures data[o + 4 + |body|..] == rest
  {
    hide PutItem, GetItem, U16;
    ItemParts(typ, body, rest);
    GetItemPutItem(typ, body, rest);
    assert data[o..] == data[o..|data|];
    ItemAt(data, o, |data|);
    assert data[o + 4 + |body|..|data|] == data[o + 4 + |body|..];
  }

  lemma TypeIsZero(e: Extension)
    requires ValidExtension(e)
    ensures Type(e) < 65536 && (Type(e) == 0 <==> e.ServerName?)
  {
  }

  lemma ItemLonger(typ: nat, body: Bytes, rest: Bytes, more: Bytes)
    ensures PutItem(typ, body, rest) + more == PutItem(typ, body, rest + more)
    ensures |PutItem(typ, body, rest)| == 4 + |body| + |rest|
  {
    hide PutItem;
    ItemParts(typ, body, rest);
    ItemParts(typ, body, rest + more);
  }

  lemma {:induction false} SearchFinds(data: Bytes, o: nat, es: seq<Extension>, i: nat, trailing: Bytes)
    requires FirstServerName(es, i) && (forall j :: 0 <= j < |es| ==> ValidExtension(es[j]))
    requires |ExtensionsBytes(es)| < 65536 && o <= |data| && data[o..] == ExtensionsBytes(es) + trailing
    ensures Search(data, o, o + |ExtensionsBytes(es)|) == o + Ahead(es, i)
    decreases |es|
  {
    hide PutItem, Body, U16, Type, ValidExtension;
    TypeIsZero(es[0]);
    var typ, body, rest := Type(es[0]), Body(es[0]), ExtensionsBytes(es[1..]);
    ItemLonger(typ, body, rest, trailing);
    ItemHere(data, o, typ, body, rest + trailing);
    ExtensionsSized(es, i);
    NameItem(es[i].host, []);
    if i > 0 {
      var next := o + 4 + |body|;
      ExtensionsSized(es[1..], i - 1);
      SearchFinds(data, next, es[1..], i - 1, trailing);
    }
  }

  /** findSNIOffset on a hello's record lands on its first server_name extension. */
  lemma OffsetFound(h: ClientHello, i: nat, trailing: Bytes)
    requires Valid(h) && FirstServerName(h.extensions, i)
    ensures SniOffset(Record(Handshake(h), trailing)) == BlockStart(h) + Ahead(h.extensions, i)
  {
    hide Search, Extensions, ExtensionsBytes, Record, Handshake, Body, Front;
    var x := ExtensionsBytes(h.extensions);
    var data := Record(Handshake(h), trailing);
    ExtensionsSized(h.extensions, i);
    RecordParts(h, trailing);
    ExtensionsFound(h, trailing);
    assert data[BlockStart(h)..] == x + trailing;
    SearchFinds(data, BlockStart(h), h.extensions, i, trailing);
  }

  lemma NameHere(data: Bytes, at: nat, host: Bytes, rest: Bytes)
    requires at <= |data| && |host| < 65536
    requires data[at..] == NameBytes(host, rest)
    ensures at + 9 + |host| <= |data| && U16At(data, at + 7) == |host|
  {
    hide Be16, U16;
    var a := Be16(0) + Be16(|host| + 5) + Be16(|host| + 3) + [0];
    LengthAt(a, |host|, host + rest);
    assert data[at..] == a + Be16(|host|) + (host + rest);
    assert U16At(data, at + 7) == U16At(data[at..], 7);
  }

  lemma {:induction false} NameBytesAt(es: seq<Extension>, i: nat, trailing: Bytes) returns (rest: Bytes)
    requires i < |es| && es[i].ServerName?
    ensures Ahead(es, i) <= |ExtensionsBytes(es) + trailing|
    ensures (ExtensionsBytes(es) + trailing)[Ahead(es, i)..] == NameBytes(es[i].host, rest)
  {
    hide Be16, PutItem, Body;
    var tail := ExtensionsBytes(es[1..]);
    if i == 0 {
      NameItem(es[0].host, tail);
      rest := tail + trailing;
    } else {
      rest := NameBytesAt(es[1..], i - 1, trailing);
      ItemParts(Type(es[0]), Body(es[0]), tail);
      assert (ExtensionsBytes(es) + trailing)[4 + |Body(es[0])|..] == tail + trailing;
    }
  }

  lemma FieldFound(h: ClientHello, i: nat, trailing: Bytes)
    requires Valid(h) && FirstServerName(h.extensions, i)
    ensures var data, pos := Record(Handshake(h), trailing), BlockStart(h) + Ahead(h.extensions, i) + 9;
      HostField(data) == if pos < |data| then Some((pos, |h.extensions[i].host|)) else None
  {
    hide SniOffset, ExtensionsBytes, Record, Handshake, Front, U16, Be16, Ahead;
    var data, host := Record(Handshake(h), trailing), h.extensions[i].host;
    var at := BlockStart(h) + Ahead(h.extensions, i);
    OffsetFound(h, i, trailing);
    RecordParts(h, trailing);
    var rest := NameBytesAt(h.extensions, i, trailing);
    assert data[at..] == (ExtensionsBytes(h.extensions) + trailing)[Ahead(h.extensions, i)..];
    HostFits(h, i);
    NameHere(data, at, host, rest);
  }

  lemma HostFits(h: ClientHello, i: nat)
    requires Valid(h) && i < |h.extensions| && h.extensions[i].ServerName?
    ensures |h.extensions[i].host| < 65536
  {
    hide Handshake, ExtensionsBytes;
    RecordParts(h, []);
    ExtensionsSized(h.extensions, i);
    NameItem(h.extensions[i].host, []);
  }

  /**
    replaceSNI on the record of a ClientHello is the record of the same ClientHello with its first
    server name exchanged for the fitted one: nothing else of the message is disturbed.
   */
  lemma ReplaceIsRename(h: ClientHello, i: nat, name: Bytes, trailing: Bytes)
    requires Valid(h) && FirstServerName(h.extensions, i)
    ensures Replaced(Record(Handshake(h), trailing), name) ==
      Record(Handshake(RenamedHello(h, i, Fitted(name, |h.extensions[i].host|))), trailing)
  {
    hide Record, Handshake, HostField, Fitted;
    var fitted := Fitted(name, |h.extensions[i].host|);
    FieldFound(h, i, trailing);
    RecordRenamed(h, i, fitted, trailing);
    var data, pos := Record(Handshake(h), trailing), BlockStart(h) + Ahead(h.extensions, i) + 9;
    if pos >= |data| {
      assert Overwrite(data, pos, fitted) == data;
    }
  }

  lemma {:induction false} KeysUntouched(es: seq<Extension>, i: nat, host: Bytes, key: Bytes)
    requires i < |es| && es[i].ServerName?
    ensures RealityHelloProofs.OfferedKey(Renamed(es, i, host), key) == RealityHelloProofs.OfferedKey(es, key)
  {
    if i == 0 {
      assert Renamed(es, i, host)[1..] == es[1..];
    } else {
      assert Renamed(es, i, host)[1..] == Renamed(es[1..], i - 1, host) && Renamed(es, i, host)[0] == es[0];
      KeysUntouched(es[1..], i - 1, host,
        if es[0].KeyShare? && RealityHelloProofs.FirstUsable(es[0].shares).Some?
        then RealityHelloProofs.FirstUsable(es[0].shares).value else key);
    }
  }

  /** So a REALITY server reads the same session id and key from the disguised hello. */
  lemma DisguiseKeepsAuth(h: ClientHello, i: nat, name: Bytes, trailing: Bytes)
    requires Valid(h) && FirstServerName(h.extensions, i)
    ensures RealityHello.Parse(Replaced(Record(Handshake(h), trailing), name)) ==
      RealityHello.Parse(Record(Handshake(h), trailing))
  {
    hide Record, Handshake, RealityHello.Parse, Replaced, Fitted;
    var host := Fitted(name, |h.extensions[i].host|);
    var h' := RenamedHello(h, i, host);
    ReplaceIsRename(h, i, name, trailing);
    ExtensionsRenamed(h.extensions, i, host);
    RecordParts(h, trailing);
    RecordParts(h', trailing);
    RealityHelloProofs.ParserInvertsSerializer(h, trailing);
    RealityHelloProofs.ParserInvertsSerializer(h', trailing);
    KeysUntouched(h.extensions, i, host, []);
  }
}

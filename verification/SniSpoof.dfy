/** SNI spoofing: locate the server_name extension of a ClientHello, split before it or overwrite it. */
module SniSpoof {
  import opened ByteSeq
  import opened Streams

  datatype Method = Split | Replace | Double | All | Unset

  predicate IsTlsClientHello(data: Bytes) { 6 <= |data| && data[0] == 0x16 && data[1] == 3 && data[5] == 1 }

  // ---- Where the search goes ----

  /** Start of the extensions block's contents and its end, or None where findSNIOffset gives up. */
  function Extensions(data: Bytes): (r: Option<(nat, nat)>)
    ensures r.Some? ==> 43 < r.value.0 && r.value.0 < |data| + 1
  {
    if |data| < 43 || 43 >= |data| then None
    else
      var o1: nat := 44 + (data[43] as int);
      if o1 + 2 >= |data| then None
      else
        var o2 := o1 + 2 + U16At(data, o1);
        if o2 >= |data| then None
        else
          var o3: nat := o2 + 1 + (data[o2] as int);
          if o3 + 2 >= |data| then None
          else Some((o3 + 2, o3 + 2 + U16At(data, o3)))
  }

  /** The loop: the offset of the first extension of type 0 from `offset` on. */
  function Search(data: Bytes, offset: nat, end: nat): (r: int)
    ensures r == -1 || (offset <= r && r + 4 < |data| && r + 4 < end && U16At(data, r) == 0)
    decreases |data| - offset
  {
    if offset + 4 < end && offset + 4 < |data| then
      if U16At(data, offset) == 0 then offset else Search(data, offset + 4 + U16At(data, offset + 2), end)
    else -1
  }

  function SniOffset(data: Bytes): (r: int)
    ensures r == -1 || (43 < r && r + 4 < |data| && U16At(data, r) == 0)
  {
    match Extensions(data)
    case None => -1
    case Some((start, end)) => Search(data, start, end)
  }

  method FindSniOffset(data: Bytes) returns (r: int)
    ensures r == SniOffset(data)
  {
    hide U16;
    if |data| < 43 { return -1; }
    var offset: nat := 9;
    offset := offset + 34;
    if offset >= |data| { return -1; }
    var sessionIdLen := data[offset] as int;
    offset := offset + 1 + sessionIdLen;
    if offset + 2 >= |data| { return -1; }
    var cipherLen := U16At(data, offset);
    offset := offset + 2 + cipherLen;
    if offset >= |data| { return -1; }
    var compLen := data[offset] as int;
    offset := offset + 1 + compLen;
    if offset + 2 >= |data| { return -1; }
    var extLen := U16At(data, offset);
    offset := offset + 2;
    var extEnd := offset + extLen;
    assert Extensions(data) == Some((offset, extEnd));
    ghost var start := offset;
    while offset + 4 < extEnd && offset + 4 < |data|
      invariant Search(data, start, extEnd) == Search(data, offset, extEnd)
      decreases |data| - offset
    {
      var extType := U16At(data, offset);
      var extDataLen := U16At(data, offset + 2);
      if extType == 0 { return offset; }
      offset := offset + 4 + extDataLen;
    }
    return -1;
  }

  // ---- Replacement ----

  /** The host name field replaceSNI will write: its position and length, or None if it gives up. */
  function HostField(data: Bytes): (r: Option<(nat, nat)>)
    ensures r.Some? ==> SniOffset(data) >= 0 && r.value.0 == SniOffset(data) + 9 && r.value.0 + r.value.1 <= |data|
  {
    var at := SniOffset(data);
    if at < 0 || at + 6 >= |data| || at + 9 >= |data| || at + 9 + U16At(data, at + 7) > |data| then None
    else Some((at + 9, U16At(data, at + 7)))
  }

  /** The new name cut or dot-padded to n bytes. */
  function Fitted(name: Bytes, n: nat): (r: Bytes)
    ensures |r| == n
  {
    seq(n, i requires 0 <= i => if i < |name| then name[i] else 46)
  }

  function Replaced(data: Bytes, name: Bytes): Bytes
  {
    match HostField(data)
    case None => data
    case Some((pos, n)) => data[..pos] + Fitted(name, n) + data[pos + n..]
  }

  /** Go's copy(dst[at:], src). */
  function Overwrite(dst: Bytes, at: nat, src: Bytes): (r: Bytes)
    requires at + |src| <= |dst|
    ensures |r| == |dst|
  {
    dst[..at] + src + dst[at + |src|..]
  }

  method ReplaceSni(data: Bytes, newSni: Bytes) returns (result: Bytes)
    ensures result == Replaced(data, newSni) && |result| == |data|
    ensures HostField(data).Some? ==>
      var (pos, n) := HostField(data).value;
      forall i :: 0 <= i < |data| ==>
        result[i] == if pos <= i < pos + n then (if i - pos < |newSni| then newSni[i - pos] else 46) else data[i]
  {
    var sniOffset := FindSniOffset(data);
    hide SniOffset, U16;
    if sniOffset < 0 { return data; }
    var pos := sniOffset + 4;
    if pos + 2 >= |data| { return data; }
    pos := pos + 2;
    if pos >= |data| { return data; }
    pos := pos + 1;
    if pos + 2 >= |data| { return data; }
    var hostLen := U16At(data, pos);
    pos := pos + 2;
    if pos + hostLen > |data| { return data; }
    if |newSni| == hostLen {
      assert newSni == Fitted(newSni, hostLen);
      return Overwrite(data, pos, newSni);
    }
    var padded := UpTo(newSni, hostLen);
    while |padded| < hostLen
      invariant |padded| <= hostLen && |UpTo(newSni, hostLen)| <= |padded|
      invariant forall i :: 0 <= i < |padded| ==> padded[i] == Fitted(newSni, hostLen)[i]
    {
      padded := padded + [46];
    }
    assert padded == Fitted(newSni, hostLen);
    return Overwrite(data, pos, padded);
  }

  // ---- The connection ----

  /** `after` is `before`, some part of the decoy, then the genuine bytes. */
  ghost predicate DecoyThen(before: Bytes, after: Bytes, decoy: Bytes, genuine: Bytes)
  {
    exists k: nat :: k <= |decoy| && after == before + decoy[..k] + genuine
  }

  class SpoofConn {
    const sink: Sink
    const spoof: Method
    const fakeSni: Bytes
    const splitPos: int
    var firstWrite: bool

    constructor (sink: Sink, spoof: Method, fakeSni: Bytes, splitPos: int)
      ensures this.sink == sink && this.spoof == spoof && this.fakeSni == fakeSni && this.splitPos == splitPos
      ensures firstWrite
    {
      this.sink, this.spoof, this.fakeSni, this.splitPos, firstWrite := sink, spoof, fakeSni, splitPos, true;
    }

    /** Only a first write that is a ClientHello is touched; double mode ignores the decoy's fate. */
    method Write(p: Bytes) returns (n: nat, ok: bool)
      modifies this, sink
      ensures !firstWrite
      ensures var spoofed := old(firstWrite) && 6 <= |p| && p[0] == 0x16 && p[1] == 3 && p[5] == 1;
        && (ok ==> n == |p|)
        && (ok && spoofed && spoof.Double? ==> DecoyThen(old(sink.Sent()), sink.Sent(), Replaced(p, fakeSni), p))
        && (ok && !(spoofed && spoof.Double?) ==>
              sink.Sent() == old(sink.Sent()) + if spoofed && spoof.Replace? then Replaced(p, fakeSni) else p)
        && (ok && !spoofed ==> sink.segments == old(sink.segments) + [p])
        && (!ok && !(spoofed && (spoof.Double? || spoof.Replace?)) ==>
              exists k: nat :: k <= |p| && sink.Sent() == old(sink.Sent()) + p[..k])
    {
      if !firstWrite {
        n, ok := sink.Write(p);
        assert p[..|p|] == p;
        return;
      }
      firstWrite := false;
      if !IsTlsClientHello(p) {
        n, ok := sink.Write(p);
        assert p[..|p|] == p;
        return;
      }
      match spoof
      case Replace => n, ok := WriteReplace(p);
      case Double =>
        n, ok := WriteDouble(p);
        assert p[..|p|] == p;
      case _ => n, ok := WriteSplit(p);
    }

    /** Two segments cut in front of the SNI extension (or at splitPos), the same stream. */
    method WriteSplit(data: Bytes) returns (n: nat, ok: bool)
      modifies sink
      ensures ok ==> n == |data| && sink.Sent() == old(sink.Sent()) + data
      ensures !ok ==> exists k: nat :: k <= |data| && sink.Sent() == old(sink.Sent()) + data[..k]
      ensures ok && SniOffset(data) > 0 ==>
        var at := if 0 < splitPos < |data| then splitPos else SniOffset(data);
        0 < at < |data| && sink.segments == old(sink.segments) + [data[..at], data[at..]]
    {
      hide SniOffset, Flatten;
      var sniOffset := FindSniOffset(data);
      if sniOffset <= 0 {
        n, ok := sink.Write(data);
        assert data[..|data|] == data;
        return;
      }
      var splitAt := sniOffset;
      if splitPos > 0 && splitPos < |data| {
        splitAt := splitPos;
      }
      var k, fine := sink.Write(data[..splitAt]);
      SliceAppend(data, 0, splitAt, k);
      if !fine {
        assert sink.Sent() == old(sink.Sent()) + data[..k];
        return 0, false;
      }
      Whole(data[..splitAt]);
      k, fine := sink.Write(data[splitAt..]);
      SliceAppend(data, splitAt, |data|, k);
      Assoc(old(sink.Sent()), data[..splitAt], data[splitAt..][..k]);
      if !fine {
        assert sink.Sent() == old(sink.Sent()) + data[..splitAt + k];
        return splitAt, false;
      }
      Whole(data[splitAt..]);
      Whole(data);
      return |data|, true;
    }

    method WriteReplace(data: Bytes) returns (n: nat, ok: bool)
      modifies sink
      ensures ok ==> n == |data| && sink.Sent() == old(sink.Sent()) + Replaced(data, fakeSni)
    {
      var modified := ReplaceSni(data, fakeSni);
      n, ok := sink.Write(modified);
      assert modified[..|modified|] == modified;
    }

    method WriteDouble(data: Bytes) returns (n: nat, ok: bool)
      modifies sink
      ensures n <= |data| && (ok ==> n == |data|)
      ensures DecoyThen(old(sink.Sent()), sink.Sent(), Replaced(data, fakeSni), data[..n])
    {
      var fakeHello := ReplaceSni(data, fakeSni);
      var k, _ := sink.Write(fakeHello);
      n, ok := sink.Write(data);
    }
  }

  /** In every mode that splits, any run of error-free writes is transparent. */
  method SendAll(conn: SpoofConn, inputs: seq<Bytes>) returns (ok: bool)
    requires !conn.spoof.Replace? && !conn.spoof.Double?
    modifies conn, conn.sink
    ensures ok ==> conn.sink.Sent() == old(conn.sink.Sent()) + Flatten(inputs)
  {
    hide Replaced;
    for i := 0 to |inputs|
      invariant conn.sink.Sent() == old(conn.sink.Sent()) + Flatten(inputs[..i])
    {
      assert inputs[..i + 1] == inputs[..i] + [inputs[i]];
      FlattenSnoc(inputs[..i], inputs[i]);
      var _, fine := conn.Write(inputs[i]);
      if !fine {
        return false;
      }
      Assoc(old(conn.sink.Sent()), Flatten(inputs[..i]), inputs[i]);
    }
    assert inputs[..|inputs|] == inputs;
    return true;
  }
}

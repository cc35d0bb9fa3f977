/**
  Length-prefixed vectors, the presentation language of RFC 8446 section 3.4. Put* writes one in
  front of what follows; Get* cuts one off the front, or fails when the bytes run out.
 */
module Vectors {
  import opened ByteSeq

  datatype Cut = Cut(field: Bytes, rest: Bytes)
  datatype Item = Item(typ: nat, data: Bytes, rest: Bytes)

  function Put8(x: Bytes, rest: Bytes): Bytes { [Low(|x|)] + x + rest }

  function Put16(x: Bytes, rest: Bytes): Bytes { Be16(|x|) + x + rest }

  /** A typed item: uint16 type, then a vector with a uint16 length. */
  function PutItem(typ: nat, data: Bytes, rest: Bytes): Bytes { Be16(typ) + Put16(data, rest) }

  function Get8(b: Bytes): Option<Cut>
  {
    if |b| < 1 then None
    else
      var n: nat := b[0];
      if 1 + n > |b| then None else Some(Cut(b[1..1 + n], b[1 + n..]))
  }

  function Get16(b: Bytes): Option<Cut>
  {
    if |b| < 2 || 2 + U16At(b, 0) > |b| then None
    else Some(Cut(b[2..2 + U16At(b, 0)], b[2 + U16At(b, 0)..]))
  }

  function GetItem(b: Bytes): (r: Option<Item>)
    ensures r.Some? ==> |r.value.rest| < |b|
  {
    if |b| < 4 || Get16(b[2..]).None? then None
    else Some(Item(U16At(b, 0), Get16(b[2..]).value.field, Get16(b[2..]).value.rest))
  }

  lemma Get8Put8(x: Bytes, rest: Bytes)
    requires |x| < 256
    ensures Get8(Put8(x, rest)) == Some(Cut(x, rest))
  {
    var b := Put8(x, rest);
    assert b[0] == |x| && b[1..1 + |x|] == x && b[1 + |x|..] == rest;
  }

  lemma Get16Put16(x: Bytes, rest: Bytes)
    requires |x| < 65536
    ensures Get16(Put16(x, rest)) == Some(Cut(x, rest))
  {
    Be16Value(|x|);
    LengthAtFront(Be16(|x|), x, rest);
  }

  lemma LengthAtFront(len: Bytes, x: Bytes, rest: Bytes)
    requires |len| == 2 && U16At(len, 0) == |x|
    ensures Get16(len + x + rest) == Some(Cut(x, rest))
  {
    var b := len + x + rest;
    assert b[0] == len[0] && b[1] == len[1];
    assert b[2..2 + |x|] == x && b[2 + |x|..] == rest;
  }

  lemma ShortHasNoItem()
    ensures forall b: Bytes :: |b| < 4 ==> GetItem(b).None?
  {
  }

  lemma GetItemPutItem(typ: nat, data: Bytes, rest: Bytes)
    requires typ < 65536 && |data| < 65536
    ensures GetItem(PutItem(typ, data, rest)) == Some(Item(typ, data, rest))
  {
    hide Be16, Get16, U16;
    Be16Value(typ);
    Get16Put16(data, rest);
    var b := PutItem(typ, data, rest);
    assert b[0] == Be16(typ)[0] && b[1] == Be16(typ)[1];
    assert b[2..] == Put16(data, rest);
  }

  lemma Put16Longer(x: Bytes, rest: Bytes, more: Bytes)
    ensures Put16(x, rest + more) == Put16(x, rest) + more
  {
    hide Be16;
  }

  lemma Put8Get8(b: Bytes)
    requires Get8(b).Some?
    ensures Put8(Get8(b).value.field, Get8(b).value.rest) == b
    ensures |Get8(b).value.field| < 256
  {
    var n: nat := b[0];
    assert b == [b[0]] + b[1..1 + n] + b[1 + n..];
  }

  lemma Put16Get16(b: Bytes)
    requires Get16(b).Some?
    ensures Put16(Get16(b).value.field, Get16(b).value.rest) == b
    ensures |Get16(b).value.field| < 65536
  {
    Be16Back(b, 0);
    var n := U16At(b, 0);
    assert b == b[0..2] + b[2..2 + n] + b[2 + n..];
  }

  lemma PutItemGetItem(b: Bytes)
    requires GetItem(b).Some?
    ensures var i := GetItem(b).value; PutItem(i.typ, i.data, i.rest) == b && i.typ < 65536 && |i.data| < 65536
  {
    Be16Back(b, 0);
    Put16Get16(b[2..]);
    assert b == b[0..2] + b[2..];
  }

  // ---- The same cuts by index into a larger buffer, as the parsers make them ----

  lemma Vector8At(b: Bytes, i: nat, j: nat)
    requires i < j <= |b|
    ensures var n: nat := b[i];
      Get8(b[i..j]) == if i + 1 + n <= j then Some(Cut(b[i + 1..i + 1 + n], b[i + 1 + n..j])) else None
  {
    var n: nat := b[i];
    if i + 1 + n <= j {
      SliceOfSlice(b, i, j, 1, 1 + n);
      SliceOfSlice(b, i, j, 1 + n, j - i);
    }
  }

  lemma Vector16At(b: Bytes, i: nat, j: nat)
    requires i + 2 <= j <= |b|
    ensures var n := U16At(b, i);
      Get16(b[i..j]) == if i + 2 + n <= j then Some(Cut(b[i + 2..i + 2 + n], b[i + 2 + n..j])) else None
  {
    var n := U16At(b, i);
    assert U16At(b[i..j], 0) == n;
    if i + 2 + n <= j {
      SliceOfSlice(b, i, j, 2, 2 + n);
      SliceOfSlice(b, i, j, 2 + n, j - i);
    }
  }

  lemma ItemAt(b: Bytes, i: nat, j: nat)
    requires i + 4 <= j <= |b|
    ensures var n := U16At(b, i + 2);
      GetItem(b[i..j]) ==
        if i + 4 + n <= j then Some(Item(U16At(b, i), b[i + 4..i + 4 + n], b[i + 4 + n..j])) else None
  {
    hide Get16;
    SliceOfSlice(b, i, j, 2, j - i);
    Vector16At(b, i + 2, j);
  }
}

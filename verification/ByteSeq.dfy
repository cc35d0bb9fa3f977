/** Bytes and the fixed-width integers every codec of the tunnel is built from. */
module ByteSeq {

  type Byte = b: int | 0 <= b < 256

  type Bytes = seq<Byte>

  datatype Option<+T> = None | Some(value: T)

  /** Go's byte(n): the low eight bits. */
  function Low(n: nat): Byte { n % 256 }

  /** Big-endian uint16; a wider number is truncated, as byte(n >> 8), byte(n) do. */
  function Be16(n: nat): (b: Bytes)
    ensures |b| == 2
  {
    [Low(n / 256), Low(n)]
  }

  function U16(hi: Byte, lo: Byte): nat { hi * 256 + lo }

  function U16At(b: Bytes, i: nat): (n: nat)
    requires i + 2 <= |b|
    ensures n < 65536
  {
    U16(b[i], b[i + 1])
  }

  function Be32(n: nat): (b: Bytes)
    ensures |b| == 4
  {
    Be16(n / 65536) + Be16(n)
  }

  function U32At(b: Bytes, i: nat): (n: nat)
    requires i + 4 <= |b|
    ensures n < 0x1_0000_0000
  {
    U16At(b, i) * 65536 + U16At(b, i + 2)
  }

  /** The high byte goes first, and reading back yields the number modulo the field's width. */
  lemma Be16Value(n: nat)
    ensures (Be16(n)[0] as int) * 0x100 + Be16(n)[1] as int == n % 0x1_0000
    ensures U16At(Be16(n), 0) == n % 65536
  {
    assert n / 256 / 256 == n / 65536;
  }

  lemma Be32Value(n: nat)
    ensures var b := Be32(n);
      (b[0] as int) * 0x100_0000 + (b[1] as int) * 0x1_0000 + (b[2] as int) * 0x100 + b[3] as int
        == n % 0x1_0000_0000
    ensures U32At(Be32(n), 0) == n % 0x1_0000_0000
  {
    Be16Value(n / 65536);
    Be16Value(n);
    assert Be32(n)[0..2] == Be16(n / 65536) && Be32(n)[2..4] == Be16(n);
    assert n / 65536 / 65536 == n / 0x1_0000_0000;
  }

  /** Writing what was read puts the same bytes back. */
  lemma Be32Back(b: Bytes, i: nat)
    requires i + 4 <= |b|
    ensures Be32(U32At(b, i)) == b[i..i + 4]
    ensures U32At(b, i)
      == (b[i] as int) * 0x100_0000 + (b[i + 1] as int) * 0x1_0000 + (b[i + 2] as int) * 0x100 + b[i + 3] as int
  {
    hide Be16;
    var hi, lo := U16At(b, i), U16At(b, i + 2);
    Halves(hi, lo);
    Be16Back(b, i);
    Be16Back(b, i + 2);
    assert b[i..i + 4] == b[i..i + 2] + b[i + 2..i + 4];
  }

  lemma Halves(hi: nat, lo: nat)
    requires lo < 65536
    ensures (hi * 65536 + lo) / 65536 == hi && Be16(hi * 65536 + lo) == Be16(lo)
  {
    LowHalf(hi, lo);
  }

  lemma Be16Back(b: Bytes, i: nat)
    requires i + 2 <= |b|
    ensures Be16(U16At(b, i)) == b[i..i + 2]
    ensures U16At(b, i) == (b[i] as int) * 0x100 + b[i + 1] as int
  {
  }

  lemma LowHalf(hi: nat, lo: nat)
    requires lo < 65536
    ensures Be16(hi * 65536 + lo) == Be16(lo)
  {
    var n := hi * 65536 + lo;
    assert n / 256 == hi * 256 + lo / 256;
    assert n % 256 == lo % 256;
  }

  /** The first `n` elements, or all of them when there are fewer (Go's copy). */
  function UpTo<T>(s: seq<T>, n: nat): seq<T> { if n < |s| then s[..n] else s }

  /** Extending a prefix by the front of the next slice. */
  lemma SliceAppend(s: Bytes, i: nat, j: nat, n: nat)
    requires i <= j <= |s| && n <= j - i
    ensures s[..i] + s[i..j][..n] == s[..i + n]
  {
  }

  lemma SliceOfSlice(s: Bytes, i: nat, j: nat, k: nat, l: nat)
    requires i <= j <= |s| && k <= l <= j - i
    ensures s[i..j][k..l] == s[i + k..i + l]
  {
    assert forall m :: 0 <= m < l - k ==> s[i..j][k..l][m] == s[i..j][k + m] == s[i + k..i + l][m];
  }

  lemma Whole(s: Bytes)
    ensures s[..|s|] == s
  {
  }

  lemma DropPrefix(a: Bytes, b: Bytes)
    ensures (a + b)[|a|..] == b
  {
  }

  lemma Assoc(a: Bytes, b: Bytes, c: Bytes)
    ensures a + b + c == a + (b + c)
  {
  }

  /** Go's copy(a[at:], src) with room for all of src. */
  method CopyInto(a: array<Byte>, at: nat, src: Bytes)
    requires at + |src| <= a.Length
    modifies a
    ensures a[at..at + |src|] == src
    ensures a[..at] == old(a[..at]) && a[at + |src|..] == old(a[at + |src|..])
  {
    forall i | 0 <= i < |src| {
      a[at + i] := src[i];
    }
    forall i | 0 <= i < |src| ensures a[at..at + |src|][i] == src[i] {
      assert a[at..at + |src|][i] == a[at + i];
    }
  }

  /** All pieces in order, as one byte string. */
  function Flatten(pieces: seq<Bytes>): Bytes
  {
    if pieces == [] then [] else pieces[0] + Flatten(pieces[1..])
  }

  lemma {:induction false} FlattenConcat(a: seq<Bytes>, b: seq<Bytes>)
    ensures Flatten(a + b) == Flatten(a) + Flatten(b)
  {
    if a == [] {
      assert a + b == b;
    } else {
      assert (a + b)[1..] == a[1..] + b;
      FlattenConcat(a[1..], b);
    }
  }

  lemma FlattenSnoc(a: seq<Bytes>, p: Bytes)
    ensures Flatten(a + [p]) == Flatten(a) + p
  {
    FlattenConcat(a, [p]);
    assert Flatten([p]) == p + Flatten([]);
  }
}

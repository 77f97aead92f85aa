/** Bytes, and 32-bit integers kept in them low byte first. */
module Words {
  import opened Arith

  type Byte = b: int | 0 <= b < 256

  type Int8 = v: int | -128 <= v < 128

  const TWO32 := 0x1_0000_0000

  predicate Fits32(v: int) { -0x8000_0000 <= v < 0x8000_0000 }

  /** Two's complement wrap-around to int32. */
  function Wrap32(v: int): (r: int)
    ensures Fits32(r)
    ensures Fits32(v) ==> r == v
  {
    var u := v % TWO32;
    if u < 0x8000_0000 then u else u - TWO32
  }

  function ToByte(v: Int8): Byte { if v < 0 then v + 256 else v }

  function FromByte(b: Byte): Int8 { if b < 128 then b else b - 256 }

  /** Memory of signed bytes, as raw bytes. */
  function AsBytes(input: seq<Int8>): (bytes: seq<Byte>)
    ensures |bytes| == |input|
  {
    seq(|input|, i requires 0 <= i < |input| => ToByte(input[i]))
  }

  /** Byte t of a value stored as int32. */
  function WordByte(v: int, t: int): Byte {
    var u := v % TWO32;
    if t == 0 then u % 0x100 else if t == 1 then u / 0x100 % 0x100
    else if t == 2 then u / 0x1_0000 % 0x100 else u / 0x100_0000 % 0x100
  }

  /** The int32 at offset `at`. */
  function Load32(s: seq<Byte>, at: int): int
    requires 0 <= at && at + 4 <= |s|
  {
    var b0: int, b1: int, b2: int, b3: int := s[at], s[at + 1], s[at + 2], s[at + 3];
    Wrap32(b0 + 0x100 * b1 + 0x1_0000 * b2 + 0x100_0000 * b3)
  }

  function PutWord(s: seq<Byte>, at: int, v: int): (r: seq<Byte>)
    requires 0 <= at && at + 4 <= |s|
    ensures |r| == |s|
    ensures forall x :: 0 <= x < |s| ==> r[x] == if at <= x < at + 4 then WordByte(v, x - at) else s[x]
  {
    s[at := WordByte(v, 0)][at + 1 := WordByte(v, 1)][at + 2 := WordByte(v, 2)][at + 3 := WordByte(v, 3)]
  }

  method Store32(buf: array<Byte>, at: int, v: int)
    requires 0 <= at && at + 4 <= buf.Length
    modifies buf
    ensures buf[..] == PutWord(old(buf[..]), at, v)
  {
    hide WordByte;
    buf[at], buf[at + 1], buf[at + 2], buf[at + 3] := WordByte(v, 0), WordByte(v, 1), WordByte(v, 2), WordByte(v, 3);
  }

  lemma FourBytes(u: int)
    requires 0 <= u < TWO32
    ensures u % 0x100 + 0x100 * (u / 0x100 % 0x100) + 0x1_0000 * (u / 0x1_0000 % 0x100) +
            0x100_0000 * (u / 0x100_0000 % 0x100) == u
  {
    var a, b := u / 0x100, u / 0x1_0000;
    assert a / 0x100 == b && b / 0x100 == u / 0x100_0000;
    assert u / 0x100_0000 < 0x100;
  }

  /** Four stored bytes read back as the wrapped value. */
  lemma LoadStored(s: seq<Byte>, at: int, v: int)
    requires 0 <= at && at + 4 <= |s|
    requires forall t :: 0 <= t < 4 ==> s[at + t] == WordByte(v, t)
    ensures Load32(s, at) == Wrap32(v)
  {
    assert s[at + 0] == WordByte(v, 0) && s[at + 1] == WordByte(v, 1);
    assert s[at + 2] == WordByte(v, 2) && s[at + 3] == WordByte(v, 3);
    FourBytes(v % TWO32);
  }

  /** Stored alike: equal up to a multiple of 2^32. */
  predicate SameWord(v: int, w: int) { v % TWO32 == w % TWO32 }

  lemma SameBytes(v: int, w: int)
    requires SameWord(v, w)
    ensures Wrap32(v) == Wrap32(w)
    ensures forall t {:trigger WordByte(v, t)} :: WordByte(v, t) == WordByte(w, t)
  {
  }

  lemma WrapIsSame(v: int)
    ensures SameWord(Wrap32(v), v)
  {
  }

  lemma SameTrans(a: int, b: int, c: int)
    requires SameWord(a, b) && SameWord(b, c)
    ensures SameWord(a, c)
  {
  }

  lemma AddSame(v: int, w: int, d: int)
    requires SameWord(v, w)
    ensures SameWord(v + d, w + d)
  {
  }

  lemma SumSame(v: int, w: int, x: int, y: int)
    requires SameWord(v, w) && SameWord(x, y)
    ensures SameWord(v + x, w + y)
  {
    AddSame(v, w, x);
    AddSame(x, y, w);
  }

  lemma ScaleMod(v: int)
    ensures SameWord(128 * v, 128 * (v % TWO32))
  {
    var e := 128 * (v % TWO32);
    DivModUnique(128 * v, TWO32, 128 * (v / TWO32) + e / TWO32, e % TWO32);
  }

  lemma ScaleSame(v: int, w: int)
    requires SameWord(v, w)
    ensures SameWord(128 * v, 128 * w)
  {
    ScaleMod(v);
    ScaleMod(w);
  }
}

/** Signed four-bit integers packed two to a byte, low nibble first. */
module Nibbles {
  import opened Words

  /** Four-bit element idx, as the format defines it. */
  function S4At(src: seq<bv8>, idx: int): (v: Int8)
    requires 0 <= idx / 2 < |src|
    ensures -8 <= v < 8
  {
    var b := src[idx / 2] as int;
    var u := if idx % 2 == 0 then b % 16 else b / 16;
    if u < 8 then u else u - 16
  }

  /** The reorder's shift, mask and sign extension. */
  function Unpack(src: seq<bv8>, nibIdx: int): Int8
    requires 0 <= nibIdx / 2 < |src|
  {
    var nib := (src[nibIdx / 2] >> (if nibIdx % 2 == 1 then 4 else 0)) & 0x0F;
    SignExtend(nib)
  }

  function SignExtend(nib: bv8): Int8 {
    FromByte(if nib & 0x08 != 0 then (nib | 0xF0) as int else nib as int)
  }

  lemma HighNibble(b: bv8)
    ensures ((b >> 4) & 0x0F) as int == b as int / 16
  {
    assert ((b >> 4) & 0x0F) == b / 16;
  }

  lemma LowNibble(b: bv8)
    ensures (b & 0x0F) as int == b as int % 16
  {
    assert b & 0x0F == b % 16;
  }

  lemma SignExtended(nib: bv8)
    requires nib < 16
    ensures SignExtend(nib) == if nib as int < 8 then nib as int else nib as int - 16
  {
    if nib < 8 {
      assert nib & 0x08 == 0;
    } else {
      assert nib & 0x08 != 0 && nib | 0xF0 == nib + 0xF0;
    }
  }

  /** The bit twiddling computes the element's signed value. */
  lemma UnpackIsS4(src: seq<bv8>, idx: int)
    requires 0 <= idx / 2 < |src|
    ensures Unpack(src, idx) == S4At(src, idx)
  {
    hide SignExtend;
    var b := src[idx / 2];
    HighNibble(b);
    LowNibble(b);
    assert (b >> 0) & 0x0F == b & 0x0F;
    SignExtended((b >> 4) & 0x0F);
    SignExtended(b & 0x0F);
  }
}

/** Bit fields inside one byte of a protocol's state array, as `setBits`,
    `setBit` and `GETBITS8` read and write them on a `uint8_t`. */
module ByteFields {
  import opened Bits

  /** The bits of byte `b` in the field `f`. */
  function GetBits8(b: uint8, f: Field): (v: nat)
    requires f.Valid(8)
    ensures v < f.Limit()
  {
    (b / Pow2(f.offset)) % Pow2(f.width)
  }

  /** The byte field is the field of the 8-bit word. */
  lemma GetBits8Field(b: uint8, f: Field)
    requires f.Valid(8)
    ensures GetBits8(b, f) == GetField(b, 8, f)
  {
    GetFieldShiftMask(b, 8, f);
  }

  /** Byte `b` with the field `f` replaced by the low bits of `v`. */
  function SetBits8(b: uint8, f: Field, v: nat): uint8
    requires f.Valid(8)
  {
    assert Pow2(8) == 256;
    SetField(b, 8, f, v)
  }

  function SetBit8(b: uint8, offset: nat, on: bool): uint8
    requires offset < 8
  {
    SetBits8(b, Field(offset, 1), if on then 1 else 0)
  }

  predicate GetBit8(b: uint8, offset: nat)
    requires offset < 8
  {
    GetBits8(b, Field(offset, 1)) == 1
  }

  /** A byte field reads back what was written into it, truncated to its size. */
  lemma GetSetBits8(b: uint8, f: Field, v: nat)
    requires f.Valid(8)
    ensures GetBits8(SetBits8(b, f, v), f) == v % f.Limit()
  {
    GetBits8Field(SetBits8(b, f, v), f);
    GetSetField(b, 8, f, v);
  }

  /** A value the field can hold reads back unchanged. */
  lemma GetSetBits8Fits(b: uint8, f: Field, v: nat)
    requires f.Valid(8) && v < f.Limit()
    ensures GetBits8(SetBits8(b, f, v), f) == v
  {
    GetSetBits8(b, f, v);
    SmallMod(v, f.Limit());
  }

  /** Writing one byte field leaves a disjoint one unchanged. */
  lemma GetSetOtherBits8(b: uint8, f: Field, g: Field, v: nat)
    requires f.Valid(8) && g.Valid(8) && f.DisjointFrom(g)
    ensures GetBits8(SetBits8(b, f, v), g) == GetBits8(b, g)
  {
    GetBits8Field(SetBits8(b, f, v), g);
    GetBits8Field(b, g);
    GetSetOtherField(b, 8, f, g, v);
  }

  /** A single bit reads back what was written. */
  lemma GetSetBit8(b: uint8, offset: nat, on: bool)
    requires offset < 8
    ensures GetBit8(SetBit8(b, offset, on), offset) == on
  {
    GetSetBits8Fits(b, Field(offset, 1), if on then 1 else 0);
  }

  /** Every field of the zero byte reads 0. */
  lemma ZeroBits8(f: Field)
    requires f.Valid(8)
    ensures GetBits8(0, f) == 0
  {
    var p := Pow2(f.offset);
    assert 0 / p == 0;
  }

  /** A byte is its low nibble plus sixteen times its high nibble. */
  lemma ByteNibbles(b: uint8)
    ensures b == GetBits8(b, Field(0, 4)) + 16 * GetBits8(b, Field(4, 4))
  {
    assert Pow2(0) == 1 && Pow2(4) == 16;
    assert b % 16 == b / 1 % 16 && b / 16 % 16 == b / 16;
  }

  /** The bitwise complement `~b` of a byte, as stored back into a byte. */
  function Not8(b: uint8): (r: uint8)
    ensures r + b == 0xFF
  {
    0xFF - b
  }
}

/** What the two Mitsubishi Heavy A/C classes share: the power bit, the
    mode field and its codes, the temperature range and the signature
    constants, and the masked byte reads and writes both classes use
    (src/ir_MitsubishiHeavy.cpp:103-183, 466-538).

    The header that fixes the bits, masks, codes and limits is not part of
    this model, so they are the parameters of a `HeavyCommon`; each class
    adds its own fields in a layout of its own.

    Every read and write of a state byte goes through the small functions
    below (`Pick`, `IsSet`, `AllSet`, `Top3`, `Top4`, `MaskSet`, `WriteBit`,
    `KeepSet`, `Plus`, `Offset`), and the facts about them are the lemmas of this module; the
    classes reason about the functions and never about raw bit operations. */
module MitsubishiHeavyLayout {
  import opened MitsubishiHeavy

  // -------------------------------------------------------------------
  // Reading a byte

  /** `b & mask`. */
  function Pick(b: bv8, mask: bv8): bv8 {
    b & mask
  }

  /** `b & bit` taken as a `bool`: some bit of `bit` is set. */
  predicate IsSet(b: bv8, bit: bv8) {
    b & bit != 0
  }

  /** `(b & bits) == bits`: every bit of `bits` is set. */
  predicate AllSet(b: bv8, bits: bv8) {
    b & bits == bits
  }

  /** `b >> 5`: the top three bits. */
  function Top3(b: bv8): bv8 {
    b >> 5
  }

  /** `b >> 4`: the top four bits. */
  function Top4(b: bv8): bv8 {
    b >> 4
  }

  /** `a | b`: a value put together from two masked parts. */
  function Join(a: bv8, b: bv8): bv8 {
    a | b
  }

  /** `b + lo`: a stored offset read back as a value. */
  function Plus(b: bv8, lo: bv8): bv8 {
    b + lo
  }

  // -------------------------------------------------------------------
  // Writing a byte

  /** `t - lo`: a value stored as its offset from `lo`. */
  function Offset(t: bv8, lo: bv8): bv8 {
    t - lo
  }

  /** `b &= ~mask; b |= v`: the bits of `mask` cleared, then `v` set. */
  function MaskSet(b: bv8, mask: bv8, v: bv8): bv8 {
    (b & !mask) | v
  }

  /** `b |= bit` or `b &= ~bit`. */
  function WriteBit(b: bv8, bit: bv8, on: bool): bv8 {
    if on then b | bit else b & !bit
  }

  /** `b &= keep; b |= v`: only the bits of `keep` kept, then `v` set. */
  function KeepSet(b: bv8, keep: bv8, v: bv8): bv8 {
    (b & keep) | v
  }

  // -------------------------------------------------------------------
  // Relations between masks

  /** No bit in common. */
  predicate Apart(a: bv8, b: bv8) {
    a & b == 0
  }

  /** Every bit of `v` lies inside `mask`. */
  predicate Fits(v: bv8, mask: bv8) {
    v & !mask == 0
  }

  /** The mask covers the top three bits. */
  predicate CoversTop3(mask: bv8) {
    mask & 0xE0 == 0xE0
  }

  /** The mask is a run of low bits: `0`, `1`, `3`, `7`, ... */
  predicate LowMask(mask: bv8) {
    mask & (mask + 1) == 0
  }

  /** Every offset from `lo` of a value up to `hi` fits in four bits. */
  predicate NibbleRange(lo: bv8, hi: bv8) {
    lo <= hi && hi - lo < 16
  }

  /** Every offset from `lo` of a value up to `hi` fits the low mask. */
  predicate OffsetRange(mask: bv8, lo: bv8, hi: bv8) {
    LowMask(mask) && lo <= hi && hi - lo <= mask
  }

  lemma Commute(a: bv8, b: bv8)
    requires Apart(a, b)
    ensures Apart(b, a)
  {
  }

  /** A value inside one field has no bit in a field apart from it. */
  lemma Disjoint(v: bv8, mask: bv8, p: bv8)
    requires Fits(v, mask) && Apart(p, mask)
    ensures Apart(v, p)
  {
  }

  /** Bits apart from a mask that covers the top three bits lie below
      them. */
  lemma BelowTop(bits: bv8, mask: bv8)
    requires Apart(bits, mask) && CoversTop3(mask)
    ensures Apart(bits, 0xE0)
  {
  }

  /** A value taken through a mask fits the mask. */
  lemma Masked(v: bv8, mask: bv8)
    ensures Fits(Pick(v, mask), mask)
  {
  }

  // -------------------------------------------------------------------
  // What the writes do to the reads

  /** Two bytes that agree on a field agree on every read of it. */
  lemma Views(x: bv8, y: bv8, p: bv8)
    requires Pick(x, p) == Pick(y, p)
    ensures IsSet(x, p) == IsSet(y, p) && AllSet(x, p) == AllSet(y, p)
  {
  }

  /** Two bytes that agree on their top three (four) bits agree on
      `Top3` (`Top4`). */
  lemma TopViews(x: bv8, y: bv8)
    ensures Pick(x, 0xE0) == Pick(y, 0xE0) ==> Top3(x) == Top3(y)
    ensures Pick(x, 0xF0) == Pick(y, 0xF0) ==> Top4(x) == Top4(y)
  {
  }

  /** A value inside the mask reads back through the mask. */
  lemma MaskSetSame(b: bv8, mask: bv8, v: bv8)
    requires Fits(v, mask)
    ensures Pick(MaskSet(b, mask, v), mask) == v
  {
  }

  /** A masked write leaves a field apart from the mask and from `v`
      alone. */
  lemma MaskSetOther(b: bv8, mask: bv8, v: bv8, p: bv8)
    requires Apart(p, mask) && Apart(v, p)
    ensures Pick(MaskSet(b, mask, v), p) == Pick(b, p)
  {
  }

  /** A bit that was set reads back as set, one that was cleared as
      clear. */
  lemma WriteBitSame(b: bv8, bit: bv8, on: bool)
    requires bit != 0
    ensures IsSet(WriteBit(b, bit, on), bit) == on
  {
  }

  /** Setting every bit of a mask makes it read back whole, clearing them
      makes it read back empty. */
  lemma WriteBitAll(b: bv8, bits: bv8, on: bool)
    requires bits != 0
    ensures AllSet(WriteBit(b, bits, on), bits) == on
  {
  }

  /** Setting or clearing bits leaves a field apart from them alone. */
  lemma WriteBitOther(b: bv8, bit: bv8, on: bool, p: bv8)
    requires Apart(bit, p)
    ensures Pick(WriteBit(b, bit, on), p) == Pick(b, p)
  {
  }

  /** Setting or clearing one bit of a byte that also holds the field `p`
      and the bits `q` and `r`, all of them apart from it. */
  lemma WriteBitKeeps(b: bv8, bit: bv8, on: bool, p: bv8, q: bv8, r: bv8)
    requires bit != 0 && Apart(bit, p) && Apart(bit, q) && Apart(bit, r)
    ensures IsSet(WriteBit(b, bit, on), bit) == on
    ensures Pick(WriteBit(b, bit, on), p) == Pick(b, p)
    ensures IsSet(WriteBit(b, bit, on), q) == IsSet(b, q)
    ensures IsSet(WriteBit(b, bit, on), r) == IsSet(b, r)
  {
    var n := WriteBit(b, bit, on);
    WriteBitSame(b, bit, on);
    WriteBitOther(b, bit, on, p);
    WriteBitOther(b, bit, on, q);
    WriteBitOther(b, bit, on, r);
    Views(n, b, q);
    Views(n, b, r);
  }

  /** A masked write of a value inside the mask: the mask reads back the
      value, and bits `p`, `q` and `r` apart from the mask keep theirs. */
  lemma MaskSetKeeps(b: bv8, mask: bv8, v: bv8, p: bv8, q: bv8, r: bv8)
    requires Fits(v, mask) && Apart(p, mask) && Apart(q, mask) && Apart(r, mask)
    ensures Pick(MaskSet(b, mask, v), mask) == v
    ensures IsSet(MaskSet(b, mask, v), p) == IsSet(b, p)
    ensures IsSet(MaskSet(b, mask, v), q) == IsSet(b, q)
    ensures IsSet(MaskSet(b, mask, v), r) == IsSet(b, r)
  {
    var n := MaskSet(b, mask, v);
    MaskSetSame(b, mask, v);
    Disjoint(v, mask, p);
    Disjoint(v, mask, q);
    Disjoint(v, mask, r);
    MaskSetOther(b, mask, v, p);
    MaskSetOther(b, mask, v, q);
    MaskSetOther(b, mask, v, r);
    Views(n, b, p);
    Views(n, b, q);
    Views(n, b, r);
  }

  /** A three-bit value shifted into the top three bits fits a mask that
      covers them, and `Top3` gives it back. */
  lemma TopField(b: bv8, mask: bv8, p: bv8)
    requires CoversTop3(mask) && p < 8
    ensures Fits(p << 5, mask)
    ensures Top3(MaskSet(b, mask, p << 5)) == p
  {
  }

  /** Keeping the bits of `keep`, which lie below the top four, and putting
      a four-bit value in the top four bits: `Top4` gives the value back,
      and a field inside `keep` keeps its bits. */
  lemma NibbleField(b: bv8, keep: bv8, d: bv8, p: bv8)
    requires Apart(keep, 0xF0) && d < 16 && Fits(p, keep)
    ensures Top4(KeepSet(b, keep, d << 4)) == d
    ensures Pick(KeepSet(b, keep, d << 4), p) == Pick(b, p)
  {
  }

  /** An offset no larger than the range fits a low mask that covers the
      range, and adding the minimum back gives the value. */
  lemma OffsetFits(mask: bv8, lo: bv8, hi: bv8, t: bv8)
    requires LowMask(mask) && lo <= t <= hi && hi - lo <= mask
    ensures Fits(Offset(t, lo), mask) && Plus(Offset(t, lo), lo) == t
  {
  }

  /** The offset of a value in a four-bit range is below 16, and adding
      the minimum back gives the value. */
  lemma NibbleOffset(lo: bv8, hi: bv8, t: bv8)
    requires NibbleRange(lo, hi) && lo <= t <= hi
    ensures Offset(t, lo) < 16 && Plus(Offset(t, lo), lo) == t
  {
  }

  /** A value that fits two masks together is the join of its two parts. */
  lemma SplitJoin(p: bv8, m: bv8, n: bv8)
    requires Fits(p, Join(m, n))
    ensures Join(Pick(p, m), Pick(p, n)) == p
  {
  }

  /** A value in range stored as its offset under a low mask reads back
      as the value. */
  lemma OffsetStored(b: bv8, mask: bv8, lo: bv8, hi: bv8, t: bv8)
    requires OffsetRange(mask, lo, hi) && lo <= t <= hi
    ensures Plus(Pick(MaskSet(b, mask, Offset(t, lo)), mask), lo) == t
  {
    OffsetFits(mask, lo, hi, t);
    MaskSetSame(b, mask, Offset(t, lo));
  }

  // -------------------------------------------------------------------
  // The shared constants

  datatype HeavyCommon = HeavyCommon(
    c: HeavyConsts,
    powerBit: bv8, modeMask: bv8,
    modeAuto: bv8, modeCool: bv8, modeDry: bv8, modeFan: bv8, modeHeat: bv8,
    tempMask: bv8, minTemp: bv8, maxTemp: bv8)
  {
    /** The signature constants are consistent, the power bit is a bit of
        its own beside the mode field, every mode code fits the mode field
        and the temperature range is not empty. */
    predicate Valid() {
      c.Valid() && powerBit != 0 && Apart(powerBit, modeMask) &&
      Fits(modeAuto, modeMask) && Fits(modeCool, modeMask) && Fits(modeDry, modeMask) &&
      Fits(modeFan, modeMask) && Fits(modeHeat, modeMask) &&
      minTemp <= maxTemp
    }

    /** The four modes `setMode` keeps; any other becomes Auto. */
    predicate KnownMode(mode: bv8) {
      mode == modeCool || mode == modeDry || mode == modeFan || mode == modeHeat
    }

    /** The mode `setMode` stores. */
    function ModeCode(mode: bv8): (r: bv8)
      ensures r == mode || r == modeAuto
      ensures KnownMode(mode) ==> r == mode
      ensures Valid() ==> Fits(r, modeMask)
    {
      if KnownMode(mode) then mode else modeAuto
    }

    /** `setTemp`'s clamping, `std::min` with the maximum and then
        `std::max` with the minimum, on bytes. */
    function ClampTemp(temp: bv8): (r: bv8)
      ensures minTemp <= maxTemp ==> minTemp <= r <= maxTemp
      ensures minTemp <= temp <= maxTemp ==> r == temp
      ensures temp < minTemp ==> r == minTemp
      ensures temp > maxTemp && minTemp <= maxTemp ==> r == maxTemp
    {
      var t := if maxTemp < temp then maxTemp else temp;
      if t < minTemp then minTemp else t
    }
  }
}

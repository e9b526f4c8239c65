/** The Vestel A/C protocol (src/ir_Vestel.cpp): a 64-bit state word sent
    least significant bit first, its population-count checksum in bits
    12..19, the assembly of the word from bytes, and the decoder.

    The timing constants, the checksum mask and the bit count are in a
    header that is not part of this model; they are parameters here. */
module Vestel {
  import opened Bits
  import opened Wrappers
  import opened IrSignal

  /** The header mark and space, the mark of every bit and of the footer,
      and the spaces of a one and of a zero bit. */
  datatype VestelTiming = VestelTiming(hdrMark: nat, hdrSpace: nat, bitMark: nat, oneSpace: nat, zeroSpace: nat)
  {
    /** Every mark and the header space are sent. */
    predicate Valid() { hdrMark > 0 && hdrSpace > 0 && bitMark > 0 }

    /** The arguments `sendVestelAC` gives the generic sender: the footer is
        a bit mark followed by a 100000 microsecond gap. */
    function AsTiming(): Timing {
      Timing(hdrMark, hdrSpace, bitMark, oneSpace, bitMark, zeroSpace, bitMark, RepeatGap)
    }
  }

  const RepeatGap: nat := 100000

  /** The first entry of a capture after its leading gap. */
  const StartOffset: nat := 1

  /** The checksum byte: bits 12..19 of the state word. */
  const CrcField: Field := Field(12, 8)

  // -------------------------------------------------------------------
  // The checksum

  /** Number of set bits. */
  function Popcount(bits: seq<bool>): (n: nat)
    ensures n <= |bits|
  {
    if bits == [] then 0 else BitValue(bits[0]) + Popcount(bits[1..])
  }

  /** The loop of `calcChecksum` counts the set bits of a word. */
  lemma {:induction false} OnesPopcount(x: nat, n: nat)
    requires x < Pow2(n)
    ensures Ones(x) == Popcount(LsbBits(x, n))
  {
    if n > 0 {
      var bits := LsbBits(x, n);
      assert bits[1..] == LsbBits(x / 2, n - 1);
      OnesPopcount(x / 2, n - 1);
    }
  }

  /** What `calcChecksum` returns: 0xFF minus two more than the number of
      bits set in the word under the mask. At most 64 bits are set, so the
      8-bit arithmetic of the source never wraps. */
  function CrcOf(crcMask: nat, state: nat): (c: nat)
    ensures 0xFF - 66 <= c <= 0xFF - 2
  {
    0xFF - (Popcount(LsbBits(And64(state, crcMask), 64)) + 2)
  }

  /** One step of the count: the low bit, then the rest. */
  lemma OnesStep(x: nat)
    requires x != 0
    ensures Ones(x) == x % 2 + Ones(x / 2)
  {
  }

  /** The last two steps of `calcChecksum` on a count of the set bits. */
  lemma CrcFromCount(crcMask: nat, state: nat, count: nat)
    requires count == Ones(And64(state, crcMask))
    ensures count <= 64
    ensures (0xFF - (count + 2) % 256) % 256 == CrcOf(crcMask, state)
  {
    OnesPopcount(And64(state, crcMask), 64);
    SmallMod(count + 2, 256);
    SmallMod(0xFF - (count + 2), 256);
  }

  /** `calcChecksum`: the masked word shifted right until it is zero,
      counting its low bits in an 8-bit sum. */
  method CalcChecksum(crcMask: nat, state: nat) returns (sum: uint8)
    ensures sum == CrcOf(crcMask, state)
  {
    sum := 0;
    var tempState := And64(state, crcMask);
    ghost var total := Ones(tempState);
    CrcFromCount(crcMask, state, total);
    while tempState != 0
      invariant sum + Ones(tempState) == total <= 64
      decreases tempState
    {
      OnesStep(tempState);
      if tempState % 2 == 1 {
        SmallMod(sum + 1, 256);
        sum := (sum + 1) % 256;
      }
      tempState := tempState / 2;
    }
    SmallMod(sum + 2, 256);
    sum := (sum + 2) % 256;
    SmallMod(0xFF - sum, 256);
    sum := (0xFF - sum) % 256;
  }

  /** `validChecksum`: bits 12..19 of the word, `(state >> 12) & 0xFF`, are
      the checksum of the word. */
  predicate ValidChecksum(crcMask: nat, state: nat) {
    (state / Pow2(12)) % 256 == CrcOf(crcMask, state)
  }

  /** The check reads the checksum byte of the word. */
  lemma ValidChecksumField(crcMask: nat, state: nat)
    ensures ValidChecksum(crcMask, state) <==> GetField(state, 64, CrcField) == CrcOf(crcMask, state)
  {
    GetFieldShiftMask(state, 64, CrcField);
    assert Pow2(8) == 256;
  }

  /** The mask leaves out the checksum byte. */
  predicate SkipsCrc(crcMask: nat) {
    GetField(crcMask, 64, CrcField) == 0
  }

  /** Bit sequences that differ only where the mask is clear are the same
      under the mask. */
  lemma AndOutside(a: seq<bool>, b: seq<bool>, mask: seq<bool>, lo: nat, hi: nat)
    requires |a| == |b| == |mask| && lo <= hi <= |a|
    requires a[..lo] == b[..lo] && a[hi..] == b[hi..]
    requires mask[lo..hi] == Zeros(hi - lo)
    ensures AndBits(a, mask) == AndBits(b, mask)
  {
    forall i | 0 <= i < |a|
      ensures (a[i] && mask[i]) == (b[i] && mask[i])
    {
      if i < lo {
        assert a[i] == a[..lo][i];
        assert b[i] == b[..lo][i];
      } else if i >= hi {
        assert a[i] == a[hi..][i - hi];
        assert b[i] == b[hi..][i - hi];
      } else {
        assert mask[i] == mask[lo..hi][i - lo];
      }
    }
  }

  /** Under a mask that leaves out the checksum byte, the masked word does
      not depend on that byte. */
  lemma MaskedWithoutCrc(crcMask: nat, x: nat, v: nat)
    requires SkipsCrc(crcMask)
    ensures And64(SetField(x, 64, CrcField, v), crcMask) == And64(x, crcMask)
  {
    var bits := LsbBits(x, 64);
    var mask := LsbBits(crcMask, 64);
    var ybits := LsbBits(SetField(x, 64, CrcField, v), 64);
    SetFieldBits(x, 64, CrcField, v);
    assert ybits[..12] == bits[..12] && ybits[20..] == bits[20..];
    FromLsbFirstZero(mask[12..20]);
    AndOutside(ybits, bits, mask, 12, 20);
  }

  /** So writing the checksum byte does not change the checksum. */
  lemma CrcWithoutCrc(crcMask: nat, x: nat, v: nat)
    requires SkipsCrc(crcMask)
    ensures CrcOf(crcMask, SetField(x, 64, CrcField, v)) == CrcOf(crcMask, x)
  {
    MaskedWithoutCrc(crcMask, x, v);
  }

  /** The word `checksum` leaves: the checksum byte set to the checksum. */
  function WithCrc(crcMask: nat, x: nat): (r: nat)
    ensures IsWord(r)
  {
    SetField(x, 64, CrcField, CrcOf(crcMask, x))
  }

  /** `checksum` makes the word pass `validChecksum`. */
  lemma WithCrcValid(crcMask: nat, x: nat)
    requires SkipsCrc(crcMask)
    ensures ValidChecksum(crcMask, WithCrc(crcMask, x))
  {
    var c := CrcOf(crcMask, x);
    CrcWithoutCrc(crcMask, x, c);
    assert Pow2(8) == 256;
    GetSetFieldFits(x, 64, CrcField, c);
    ValidChecksumField(crcMask, WithCrc(crcMask, x));
  }

  /** Assigning a field twice with the same value is assigning it once. */
  lemma SetFieldTwice(x: nat, n: nat, f: Field, v: nat)
    requires f.Valid(n)
    ensures SetField(SetField(x, n, f, v), n, f, v) == SetField(x, n, f, v)
  {
    var bits := LsbBits(x, n);
    var b1 := LsbBits(SetField(x, n, f, v), n);
    SetFieldBits(x, n, f, v);
    assert b1[..f.offset] == bits[..f.offset];
    assert b1[f.offset + f.width ..] == bits[f.offset + f.width ..];
  }

  /** `checksum` is idempotent. */
  lemma WithCrcIdempotent(crcMask: nat, x: nat)
    requires SkipsCrc(crcMask)
    ensures WithCrc(crcMask, WithCrc(crcMask, x)) == WithCrc(crcMask, x)
  {
    var c := CrcOf(crcMask, x);
    CrcWithoutCrc(crcMask, x, c);
    SetFieldTwice(x, 64, CrcField, c);
  }

  /** A word whose checksum byte is already right is left as it is. */
  lemma WithCrcOfValid(crcMask: nat, x: nat)
    requires IsWord(x) && ValidChecksum(crcMask, x)
    ensures WithCrc(crcMask, x) == x
  {
    ValidChecksumField(crcMask, x);
    SetFieldSame(x, 64, CrcField);
  }

  // -------------------------------------------------------------------
  // The word assembled from bytes

  /** Bytes put together little-endian: byte `i` at bits `8i` to `8i+7`. */
  function LittleEndian(bs: seq<uint8>): (x: nat)
    ensures x < Pow2(8 * |bs|)
  {
    FromLsbFirst(BytesBits(bs, false))
  }

  /** Zero bits on top do not change a value. */
  lemma FromLsbFirstPadded(bits: seq<bool>, n: nat)
    ensures FromLsbFirst(bits + Zeros(n)) == FromLsbFirst(bits)
  {
    var z := Zeros(n);
    FromLsbFirstAppend(bits, z);
    ZerosFromLsbFirst(n);
  }

  /** The bits of a value, read past its width, are zero. */
  lemma LsbBitsPadded(bits: seq<bool>, n: nat)
    ensures LsbBits(FromLsbFirst(bits), |bits| + n) == bits + Zeros(n)
  {
    var w := bits + Zeros(n);
    FromLsbFirstPadded(bits, n);
    LsbBitsOfFromLsbFirst(w);
    assert |w| == |bits| + n;
  }

  /** Or-ing a value with a byte shifted past it puts the byte's bits
      after the value's. */
  lemma OrJoin(lo: seq<bool>, byte: seq<bool>, n: nat)
    requires |lo| + |byte| + n == 64
    ensures OrBits(lo + Zeros(|byte| + n), Zeros(|lo|) + (byte + Zeros(n))) == lo + byte + Zeros(n)
  {
    var a := lo + Zeros(|byte| + n);
    var b := Zeros(|lo|) + (byte + Zeros(n));
    var w := lo + byte + Zeros(n);
    forall i | 0 <= i < 64
      ensures (a[i] || b[i]) == w[i]
    {
      if i < |lo| {
        assert a[i] == lo[i] && !b[i] && w[i] == lo[i];
      } else if i < |lo| + |byte| {
        assert !a[i] && b[i] == byte[i - |lo|] && w[i] == byte[i - |lo|];
      } else {
        assert !a[i] && !b[i] && !w[i];
      }
    }
  }

  /** A byte shifted left by `p` bits, as a 64-bit sequence. */
  lemma ShiftedByte(b: uint8, p: nat)
    requires p <= 56
    ensures LsbBits(Shl64(b, p), 64) == Zeros(p) + (LsbBits(b, 8) + Zeros(56 - p))
  {
    var byte := LsbBits(b, 8);
    assert Pow2(8) == 256;
    FromLsbFirstOfLsbBits(b, 8);
    LsbBitsPadded(byte, 56 - p);
  }

  /** One step of the loop of `setRaw`: or-ing in the next byte shifted
      past the bytes already there appends it. */
  lemma LittleEndianStep(bs: seq<uint8>, b: uint8)
    requires |bs| < 8
    ensures LittleEndian(bs + [b]) == Or64(LittleEndian(bs), Shl64(b, 8 * |bs|))
  {
    var p := 8 * |bs|;
    var lo := BytesBits(bs, false);
    var byte := LsbBits(b, 8);
    BytesBitsAppend(bs, [b], false);
    assert BytesBits([b], false) == byte + [];
    assert BytesBits(bs + [b], false) == lo + byte;
    LsbBitsPadded(lo, 64 - p);
    ShiftedByte(b, p);
    OrJoin(lo, byte, 56 - p);
    FromLsbFirstPadded(lo + byte, 56 - p);
  }

  /** The bits of byte `i` of a sequence. */
  lemma {:induction false} BytesBitsAt(bs: seq<uint8>, i: nat)
    requires i < |bs|
    ensures BytesBits(bs, false)[8 * i .. 8 * i + 8] == LsbBits(bs[i], 8)
  {
    var bits := BytesBits(bs, false);
    assert bits == LsbBits(bs[0], 8) + BytesBits(bs[1..], false);
    if i > 0 {
      BytesBitsAt(bs[1..], i - 1);
      assert bits[8 * i .. 8 * i + 8] == BytesBits(bs[1..], false)[8 * (i - 1) .. 8 * (i - 1) + 8];
    }
  }

  /** The word `setRaw` builds from seven bytes holds byte `i` at bits
      `8i..8i+7`, and its top byte is zero. */
  lemma LittleEndianFields(bs: seq<uint8>)
    requires |bs| == 7
    ensures forall i :: 0 <= i < 7 ==> GetField(LittleEndian(bs), 64, Field(8 * i, 8)) == bs[i]
    ensures GetField(LittleEndian(bs), 64, Field(56, 8)) == 0
  {
    var bits := BytesBits(bs, false);
    LsbBitsPadded(bits, 8);
    assert LsbBits(LittleEndian(bs), 64) == bits + Zeros(8);
    forall i | 0 <= i < 7
      ensures GetField(LittleEndian(bs), 64, Field(8 * i, 8)) == bs[i]
    {
      assert (bits + Zeros(8))[8 * i .. 8 * i + 8] == bits[8 * i .. 8 * i + 8];
      BytesBitsAt(bs, i);
      assert Pow2(8) == 256;
      FromLsbFirstOfLsbBits(bs[i], 8);
    }
    assert (bits + Zeros(8))[56..64] == Zeros(8);
    ZerosFromLsbFirst(8);
  }

  /** One more byte of a prefix, or-ed in at its place. */
  lemma LittleEndianPrefix(bs: seq<uint8>, i: nat)
    requires i < |bs| && i < 8
    ensures LittleEndian(bs[..i + 1]) == Or64(LittleEndian(bs[..i]), Shl64(bs[i], 8 * i))
  {
    LittleEndianStep(bs[..i], bs[i]);
    assert bs[..i] + [bs[i]] == bs[..i + 1];
  }

  /** The loop of `setRaw(uint8_t*)`: the first seven bytes or-ed in, byte
      `i` shifted left by `8i`. */
  method AssembleWord(newState: seq<uint8>) returns (upState: nat)
    requires |newState| >= 7
    ensures upState == LittleEndian(newState[..7])
    ensures IsWord(upState)
  {
    upState := 0;
    assert newState[..0] == [];
    for i := 0 to 7
      invariant upState == LittleEndian(newState[..i])
    {
      LittleEndianPrefix(newState, i);
      upState := Or64(upState, Shl64(newState[i], i * 8));
    }
    Pow2Le(56, 64);
  }

  // -------------------------------------------------------------------
  // Sending

  /** `sendVestelAC`: nothing unless `nbits` is a multiple of 8; else the
      low `nbits` bits of the word, least significant first, `repeat + 1`
      times. */
  function SendVestelAc(vt: VestelTiming, data: nat, nbits: uint16, repeat: uint16): (ps: seq<Pulse>)
    ensures nbits % 8 != 0 ==> ps == []
    ensures nbits % 8 == 0 && vt.Valid() ==> |ps| == (repeat + 1) * (2 * nbits + 4)
  {
    if nbits % 8 != 0 then []
    else
      FrameLength(vt.AsTiming(), WordBits(data, nbits, false), 0);
      SendWord(vt.AsTiming(), data, nbits, false, 0, repeat)
  }

  // -------------------------------------------------------------------
  // Decoding

  /** What a successful decode reports: the bit count and the word. */
  datatype VestelMessage = VestelMessage(bits: nat, value: nat)

  /** `decodeVestelAC`: `nbits` a multiple of 8, exactly the Vestel bit
      count in strict mode, at most 64; then the header mark and space, the
      data bits, the footer mark, and in strict mode a valid checksum. */
  function DecodeVestelAc(m: Matcher, vt: VestelTiming, crcMask: nat, acBits: nat, raw: seq<nat>,
                          nbits: uint16, strict: bool): (r: Option<VestelMessage>)
    ensures r.Some? ==> nbits % 8 == 0 && nbits <= 64
    ensures r.Some? ==> r.value.bits == nbits && r.value.value < Pow2(nbits)
    ensures r.Some? ==> MarkAt(m, raw, StartOffset, vt.hdrMark) && SpaceAt(m, raw, StartOffset + 1, vt.hdrSpace)
    ensures r.Some? ==> MarkAt(m, raw, StartOffset + 2 + 2 * nbits, vt.bitMark)
    ensures r.Some? && strict ==> nbits == acBits && ValidChecksum(crcMask, r.value.value)
  {
    if nbits % 8 != 0 then None
    else if strict && nbits != acBits then None
    else if nbits > 64 then None
    else if !MarkAt(m, raw, StartOffset, vt.hdrMark) then None
    else if !SpaceAt(m, raw, StartOffset + 1, vt.hdrSpace) then None
    else
      match MatchData(m, raw, StartOffset + 2, nbits, vt.AsTiming(), false)
      case None => None
      case Some(d) =>
        if !MarkAt(m, raw, StartOffset + 2 + d.used, vt.bitMark) then None
        else if strict && !ValidChecksum(crcMask, d.data) then None
        else Some(VestelMessage(nbits, d.data))
  }

  /** The capture of one message holds the header at 1 and 2, the data
      pulses from 3 and the footer mark after them. */
  lemma VestelCapture(vt: VestelTiming, data: nat, nbits: uint16, lead: nat)
    requires vt.Valid() && nbits % 8 == 0
    ensures var raw := Capture(lead, SendVestelAc(vt, data, nbits, 0));
            |raw| == 2 * nbits + 5 && raw[1] == vt.hdrMark && raw[2] == vt.hdrSpace &&
            raw[3 + 2 * nbits] == vt.bitMark &&
            HoldsAt(raw, 3, DataPulses(vt.AsTiming(), LsbBits(data, nbits)))
  {
    var t := vt.AsTiming();
    var data_ := DataPulses(t, LsbBits(data, nbits));
    var hdr := [Mark(vt.hdrMark), Space(vt.hdrSpace)];
    var foot := [Mark(vt.bitMark)] + [Space(RepeatGap)];
    var f := hdr + data_ + foot;
    assert SendVestelAc(vt, data, nbits, 0) == f + [] == f;
    CaptureHolds(lead, f);
    var raw := Capture(lead, f);
    HoldsAtSplit(raw, 1, hdr + data_, foot);
    HoldsAtSplit(raw, 1, hdr, data_);
    assert raw[1] == hdr[0].us && raw[2] == hdr[1].us;
    assert raw[3 + |data_|] == foot[0].us;
  }

  /** A word sent once is decoded back: the low `nbits` bits for a multiple
      of 8 up to 64, also in strict mode when `nbits` is the Vestel bit
      count and the checksum is valid. */
  lemma DecodesSentWord(m: Matcher, vt: VestelTiming, crcMask: nat, acBits: nat, data: nat,
                        nbits: uint16, lead: nat, strict: bool)
    requires Exact(m) && Separates(m, vt.AsTiming()) && vt.Valid()
    requires nbits % 8 == 0 && nbits <= 64 && data < Pow2(nbits)
    requires strict ==> nbits == acBits && ValidChecksum(crcMask, data)
    ensures DecodeVestelAc(m, vt, crcMask, acBits, Capture(lead, SendVestelAc(vt, data, nbits, 0)), nbits, strict) ==
            Some(VestelMessage(nbits, data))
  {
    var t := vt.AsTiming();
    var raw := Capture(lead, SendVestelAc(vt, data, nbits, 0));
    VestelCapture(vt, data, nbits, lead);
    MatchBitsOfData(m, raw, 3, t, LsbBits(data, nbits));
    FromLsbFirstOfLsbBits(data, nbits);
    assert MatchData(m, raw, 3, nbits, t, false) == Some(DataMatch(data, 2 * nbits));
    assert m.mark(vt.hdrMark, vt.hdrMark) && m.space(vt.hdrSpace, vt.hdrSpace) && m.mark(vt.bitMark, vt.bitMark);
    DecodesMatchedWord(m, vt, crcMask, acBits, raw, data, nbits, strict);
  }

  /** A capture whose header, data and footer match decodes into the data. */
  lemma DecodesMatchedWord(m: Matcher, vt: VestelTiming, crcMask: nat, acBits: nat, raw: seq<nat>,
                           data: nat, nbits: uint16, strict: bool)
    requires nbits % 8 == 0 && nbits <= 64
    requires strict ==> nbits == acBits && ValidChecksum(crcMask, data)
    requires MarkAt(m, raw, StartOffset, vt.hdrMark) && SpaceAt(m, raw, StartOffset + 1, vt.hdrSpace)
    requires MatchData(m, raw, StartOffset + 2, nbits, vt.AsTiming(), false) == Some(DataMatch(data, 2 * nbits))
    requires MarkAt(m, raw, StartOffset + 2 + 2 * nbits, vt.bitMark)
    ensures DecodeVestelAc(m, vt, crcMask, acBits, raw, nbits, strict) == Some(VestelMessage(nbits, data))
  {
  }
}

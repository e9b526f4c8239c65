/** The MilesTag2 laser-tag protocol (src/ir_MilesTag2.cpp): a header mark,
    then each bit as a fixed space followed by a long (one) or short (zero)
    mark, most significant bit first, then a fixed gap. Shots are 14 bits
    and messages 24. */
module MilesTag2 {
  import opened Bits
  import opened Wrappers
  import opened IrSignal

  const HdrMark: nat := 2400
  const BitSpace: nat := 600
  const OneMark: nat := 1200
  const ZeroMark: nat := 600
  const RptLength: nat := 32000

  const ShotBits: nat := 14
  const MsgBits: nat := 24

  // ---------------------------------------------------------------------
  // Sending

  /** One bit: the space, then the mark whose length carries the bit. */
  function MilesBitPulses(b: bool): seq<Pulse> {
    [Space(BitSpace), Mark(if b then OneMark else ZeroMark)]
  }

  function MilesDataPulses(bits: seq<bool>): (ps: seq<Pulse>)
    ensures |ps| == 2 * |bits|
  {
    if bits == [] then []
    else MilesDataPulses(bits[..|bits| - 1]) + MilesBitPulses(bits[|bits| - 1])
  }

  /** One round: header mark, the low `nbits` bits of `data`, and the gap. */
  function MilesFrame(data: nat, nbits: nat): (ps: seq<Pulse>)
    ensures |ps| == 2 * nbits + 2
  {
    [Mark(HdrMark)] + MilesDataPulses(MsbBits(data, nbits)) + [Space(RptLength)]
  }

  /** What `_sendMiles` emits: with no bits, the header mark of the first
      round and nothing else; otherwise `repeat + 1` rounds. The round
      counter is 16 bits wide and the loop runs while it is at most
      `repeat`, so with bits to send a `repeat` of 0xFFFF never ends. */
  function MilesPulses(data: nat, nbits: nat, repeat: nat): (ps: seq<Pulse>)
    requires nbits == 0 || repeat < 0xFFFF
    ensures nbits == 0 ==> ps == [Mark(HdrMark)]
    ensures nbits > 0 ==> |ps| == (repeat + 1) * (2 * nbits + 2)
    ensures nbits > 0 ==> ps[..2 * nbits + 2] == MilesFrame(data, nbits)
  {
    if nbits == 0 then [Mark(HdrMark)] else Repeated(MilesFrame(data, nbits), repeat + 1)
  }

  /** The bit a mask of a single set bit selects is the bit `MsbBits` puts
      at that place. */
  lemma {:induction false} MsbBitsAt(x: nat, n: nat, i: nat)
    requires i < n
    ensures MsbBits(x, n)[i] == ((x / Pow2(n - 1 - i)) % 2 == 1)
  {
    if i < n - 1 {
      MsbBitsAt(x / 2, n - 1, i);
      DivModStep(x, Pow2(n - 2 - i));
    }
  }

  lemma MilesDataStep(bits: seq<bool>, b: bool)
    ensures MilesDataPulses(bits + [b]) == MilesDataPulses(bits) + MilesBitPulses(b)
  {
    assert (bits + [b])[..|bits|] == bits;
  }

  /** One step of the mask: the pulses of the first `i + 1` bits are those
      of the first `i` and then those of the bit the mask selects. */
  lemma MilesDataPrefix(data: nat, nbits: nat, i: nat)
    requires i < nbits
    ensures var bits := MsbBits(data, nbits);
            MilesDataPulses(bits[..i + 1]) ==
            MilesDataPulses(bits[..i]) + MilesBitPulses((data / Pow2(nbits - 1 - i)) % 2 == 1)
  {
    var bits := MsbBits(data, nbits);
    MsbBitsAt(data, nbits, i);
    MilesDataStep(bits[..i], bits[i]);
    assert bits[..i + 1] == bits[..i] + [bits[i]];
  }

  /** The mask shifted right by one: the next lower power of two, or zero
      after the lowest. */
  lemma Pow2Half(k: nat)
    ensures Pow2(k) / 2 == if k == 0 then 0 else Pow2(k - 1)
  {
  }

  /** The data part of one round of `_sendMiles`: one bit per step of a
      mask shifted right from bit `nbits - 1` until it is zero. */
  method SendMilesData(data: nat, nbits: uint16) returns (sent: seq<Pulse>)
    requires nbits > 0
    ensures sent == MilesDataPulses(MsbBits(data, nbits))
  {
    ghost var bits := MsbBits(data, nbits);
    var mask := Pow2(nbits - 1);
    ghost var i := 0;
    sent := [];
    while mask != 0
      invariant i <= nbits
      invariant mask == if i < nbits then Pow2(nbits - 1 - i) else 0
      invariant sent == MilesDataPulses(bits[..i])
      decreases nbits - i
    {
      MilesDataPrefix(data, nbits, i);
      Pow2Half(nbits - 1 - i);
      if (data / mask) % 2 == 1 {
        sent := sent + [Space(BitSpace), Mark(OneMark)];
      } else {
        sent := sent + [Space(BitSpace), Mark(ZeroMark)];
      }
      mask := mask / 2;
      i := i + 1;
    }
    assert bits[..i] == bits;
  }

  /** `_sendMiles`: for each round the header mark, the data and the gap;
      with no bits it stops after the first header mark. */
  method SendMiles(data: nat, nbits: uint16, repeat: uint16) returns (ps: seq<Pulse>)
    requires nbits == 0 || repeat < 0xFFFF
    ensures ps == MilesPulses(data, nbits, repeat)
  {
    ps := [];
    ghost var round := MilesFrame(data, nbits);
    var r: uint16 := 0;
    while r <= repeat
      invariant r <= repeat + 1
      invariant nbits > 0 || r == 0
      invariant ps == Repeated(round, r)
    {
      ps := ps + [Mark(HdrMark)];
      if nbits == 0 {
        return;
      }
      var sent := SendMilesData(data, nbits);
      ps := ps + sent + [Space(RptLength)];
      RepeatedAppend(round, r + 1);
      r := r + 1;
    }
  }

  /** `sendMilesShot` and `sendMilesMsg` both send through `_sendMiles`. */
  method SendMilesShot(data: nat, nbits: uint16, repeat: uint16) returns (ps: seq<Pulse>)
    requires nbits == 0 || repeat < 0xFFFF
    ensures ps == MilesPulses(data, nbits, repeat)
  {
    ps := SendMiles(data, nbits, repeat);
  }

  method SendMilesMsg(data: nat, nbits: uint16, repeat: uint16) returns (ps: seq<Pulse>)
    requires nbits == 0 || repeat < 0xFFFF
    ensures ps == MilesPulses(data, nbits, repeat)
  {
    ps := SendMiles(data, nbits, repeat);
  }

  // ---------------------------------------------------------------------
  // Decoding

  datatype MilesKind = Shot | Msg

  /** A decoded message; the decoder always clears command and address. */
  datatype MilesMessage = MilesMessage(kind: MilesKind, bits: nat, value: nat, command: nat, address: nat)

  /** The two sizes the decoder reports, with their message kinds. */
  function KindOf(nbits: nat): (r: Option<MilesKind>)
    ensures r.Some? <==> nbits == ShotBits || nbits == MsgBits
    ensures r == Some(Shot) <==> nbits == ShotBits
  {
    if nbits == ShotBits then Some(Shot)
    else if nbits == MsgBits then Some(Msg)
    else None
  }

  /** The bit whose space is at `q` and mark at `q + 1`: a one if the mark
      matches a one, else a zero if it matches a zero, else no bit. */
  function MilesBitAt(m: Matcher, raw: seq<nat>, q: nat): (r: Option<bool>)
    ensures r.Some? ==> q + 1 < |raw|
  {
    if MarkAt(m, raw, q + 1, OneMark) && SpaceAt(m, raw, q, BitSpace) then Some(true)
    else if MarkAt(m, raw, q + 1, ZeroMark) && SpaceAt(m, raw, q, BitSpace) then Some(false)
    else None
  }

  /** The first `n` bits from `pos`, in the order they arrive. */
  function MilesBits(m: Matcher, raw: seq<nat>, pos: nat, n: nat): (r: Option<seq<bool>>)
    ensures r.Some? ==> |r.value| == n
    ensures r.Some? && n > 0 ==> pos + 2 * n <= |raw|
    decreases n
  {
    if n == 0 then Some([])
    else
      match MilesBits(m, raw, pos, n - 1)
      case None => None
      case Some(bs) =>
        match MilesBitAt(m, raw, pos + 2 * (n - 1))
        case None => None
        case Some(b) => Some(bs + [b])
  }

  /** `decodeMiles`: a strict decode refuses sizes other than 14 and 24;
      then the header mark, then `nbits` bits most significant first; only
      14 and 24 bits are reported, as a shot and a message. No gap or
      trailing entry is checked. */
  function MilesDecoding(m: Matcher, raw: seq<nat>, offset: nat, nbits: nat, strict: bool): (r: Option<MilesMessage>)
    ensures r.Some? ==> r.value.bits == nbits && Some(r.value.kind) == KindOf(nbits)
    ensures r.Some? ==> r.value.value < Pow2(nbits) && r.value.command == 0 && r.value.address == 0
    ensures r.Some? ==> MarkAt(m, raw, offset, HdrMark) && offset + 1 + 2 * nbits <= |raw|
  {
    if strict && KindOf(nbits).None? then None
    else if !MarkAt(m, raw, offset, HdrMark) then None
    else
      match MilesBits(m, raw, offset + 1, nbits)
      case None => None
      case Some(bs) =>
        match KindOf(nbits)
        case None => None
        case Some(kind) => Some(MilesMessage(kind, nbits, FromMsbFirst(bs), 0, 0))
  }

  /** A failed bit fails every longer read. */
  lemma {:induction false} MilesBitsFail(m: Matcher, raw: seq<nat>, pos: nat, j: nat, n: nat)
    requires j < n && MilesBits(m, raw, pos, j + 1).None?
    ensures MilesBits(m, raw, pos, n).None?
    decreases n
  {
    if n > j + 1 {
      MilesBitsFail(m, raw, pos, j, n - 1);
    }
  }

  /** One more bit read after `j` good ones. */
  lemma MilesBitsStep(m: Matcher, raw: seq<nat>, pos: nat, j: nat, bs: seq<bool>, b: bool)
    requires MilesBits(m, raw, pos, j) == Some(bs) && MilesBitAt(m, raw, pos + 2 * j) == Some(b)
    ensures MilesBits(m, raw, pos, j + 1) == Some(bs + [b])
  {
  }

  /** Past the size and header checks, the result is the bits read. */
  lemma DecodingOfBits(m: Matcher, raw: seq<nat>, offset: nat, nbits: nat, strict: bool, bits: Option<seq<bool>>)
    requires !strict || KindOf(nbits).Some?
    requires MarkAt(m, raw, offset, HdrMark) && MilesBits(m, raw, offset + 1, nbits) == bits
    ensures bits.None? ==> MilesDecoding(m, raw, offset, nbits, strict).None?
    ensures bits.Some? && nbits == ShotBits ==>
            MilesDecoding(m, raw, offset, nbits, strict) == Some(MilesMessage(Shot, nbits, FromMsbFirst(bits.value), 0, 0))
    ensures bits.Some? && nbits == MsgBits ==>
            MilesDecoding(m, raw, offset, nbits, strict) == Some(MilesMessage(Msg, nbits, FromMsbFirst(bits.value), 0, 0))
    ensures KindOf(nbits).None? ==> MilesDecoding(m, raw, offset, nbits, strict).None?
  {
  }

  lemma FromMsbFirstStep(bs: seq<bool>, b: bool)
    ensures FromMsbFirst(bs + [b]) == 2 * FromMsbFirst(bs) + BitValue(b)
  {
    assert (bs + [b])[..|bs|] == bs;
  }

  /** The value of the bits read, if every pair is a bit. */
  function MilesValue(m: Matcher, raw: seq<nat>, pos: nat, n: nat): Option<nat> {
    match MilesBits(m, raw, pos, n)
    case None => None
    case Some(bs) => Some(FromMsbFirst(bs))
  }

  /** The decoder's data loop: each bit shifted into the accumulated value,
      stopping at the first entry pair that is neither bit. */
  method ReadMilesData(m: Matcher, raw: seq<nat>, pos: nat, nbits: uint16) returns (r: Option<nat>)
    ensures r == MilesValue(m, raw, pos, nbits)
  {
    var data := 0;
    var shift := 0;
    ghost var j := 0;
    ghost var bs := [];
    while shift < nbits * 2
      invariant j <= nbits && shift == 2 * j
      invariant MilesBits(m, raw, pos, j) == Some(bs) && data == FromMsbFirst(bs)
      decreases nbits - j
    {
      var bit := MilesBitAt(m, raw, pos + shift);
      if bit.None? {
        MilesBitsFail(m, raw, pos, j, nbits);
        return None;
      }
      MilesBitsStep(m, raw, pos, j, bs, bit.value);
      FromMsbFirstStep(bs, bit.value);
      data := data * 2 + BitValue(bit.value);
      bs := bs + [bit.value];
      shift := shift + 2;
      j := j + 1;
    }
    r := Some(data);
  }

  /** `decodeMiles`: the size check of a strict decode, the header mark,
      the data, and the final size switch. */
  method DecodeMiles(m: Matcher, raw: seq<nat>, offset: nat, nbits: uint16, strict: bool)
    returns (r: Option<MilesMessage>)
    ensures r == MilesDecoding(m, raw, offset, nbits, strict)
  {
    if strict && !(nbits == 14 || nbits == 24) {
      return None;
    }
    if !MarkAt(m, raw, offset, HdrMark) {
      return None;
    }
    var data := ReadMilesData(m, raw, offset + 1, nbits);
    DecodingOfBits(m, raw, offset, nbits, strict, MilesBits(m, raw, offset + 1, nbits));
    if data.None? {
      return None;
    }
    if nbits == 14 {
      r := Some(MilesMessage(Shot, nbits, data.value, 0, 0));
    } else if nbits == 24 {
      r := Some(MilesMessage(Msg, nbits, data.value, 0, 0));
    } else {
      r := None;
    }
  }

  /** The strict flag changes nothing: the final size check refuses every
      size the strict check refuses. */
  lemma StrictChangesNothing(m: Matcher, raw: seq<nat>, offset: nat, nbits: nat)
    ensures MilesDecoding(m, raw, offset, nbits, true) == MilesDecoding(m, raw, offset, nbits, false)
  {
  }

  // ---------------------------------------------------------------------
  // Decoding what was sent

  /** The tolerance check does not take a zero's mark for a one's. */
  predicate SeparatesMarks(m: Matcher) {
    !m.mark(ZeroMark, OneMark)
  }

  lemma {:induction false} MilesBitsOfData(m: Matcher, raw: seq<nat>, pos: nat, bits: seq<bool>)
    requires Exact(m) && SeparatesMarks(m)
    requires HoldsAt(raw, pos, MilesDataPulses(bits))
    ensures MilesBits(m, raw, pos, |bits|) == Some(bits)
    decreases |bits|
  {
    if bits != [] {
      var n := |bits|;
      var init, last := bits[..n - 1], bits[n - 1];
      assert MilesDataPulses(bits) == MilesDataPulses(init) + MilesBitPulses(last);
      HoldsAtSplit(raw, pos, MilesDataPulses(init), MilesBitPulses(last));
      MilesBitsOfData(m, raw, pos, init);
      MilesBitOfPulses(m, raw, pos + 2 * |init|, last);
      MilesBitsStep(m, raw, pos, |init|, init, last);
      assert init + [last] == bits;
    }
  }

  /** The two entries of a sent bit are matched back as that bit. */
  lemma MilesBitOfPulses(m: Matcher, raw: seq<nat>, q: nat, b: bool)
    requires Exact(m) && SeparatesMarks(m)
    requires HoldsAt(raw, q, MilesBitPulses(b))
    ensures MilesBitAt(m, raw, q) == Some(b)
  {
    assert raw[q] == MilesBitPulses(b)[0].us;
    assert raw[q + 1] == MilesBitPulses(b)[1].us;
  }

  /** The first round of a send of 14 or 24 bits decodes, from the entry
      after the leading gap, to the data truncated to those bits. */
  lemma DecodesSent(m: Matcher, data: nat, nbits: nat, repeat: nat, lead: nat, strict: bool)
    requires Exact(m) && SeparatesMarks(m)
    requires nbits == ShotBits || nbits == MsgBits
    requires repeat < 0xFFFF
    ensures MilesDecoding(m, Capture(lead, MilesPulses(data, nbits, repeat)), 1, nbits, strict) ==
            Some(MilesMessage(KindOf(nbits).value, nbits, data % Pow2(nbits), 0, 0))
  {
    var ps := MilesPulses(data, nbits, repeat);
    var raw := Capture(lead, ps);
    var bits := MsbBits(data, nbits);
    var frame := MilesFrame(data, nbits);
    CaptureHolds(lead, ps);
    assert ps == frame + Repeated(frame, repeat);
    HoldsAtSplit(raw, 1, frame, Repeated(frame, repeat));
    assert frame == [Mark(HdrMark)] + (MilesDataPulses(bits) + [Space(RptLength)]);
    HoldsAtSplit(raw, 1, [Mark(HdrMark)], MilesDataPulses(bits) + [Space(RptLength)]);
    HoldsAtSplit(raw, 2, MilesDataPulses(bits), [Space(RptLength)]);
    assert raw[1] == HdrMark;
    MilesBitsOfData(m, raw, 2, bits);
    MsbFirstRoundTrip(data, nbits);
  }
}

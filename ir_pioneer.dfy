/** The Pioneer protocol (src/ir_Pioneer.cpp): a 64-bit word sent as two NEC
    codes, the high 32 bits and then the low 32 bits, with a data-less
    separator between them and an optional NEC repeat frame after them.
    All NEC timings are multiples of a 560 microsecond tick. */
module Pioneer {
  import opened Bits
  import opened IrSignal

  const NecTick: nat := 560
  const NecHdrMarkTicks: nat := 16
  const NecHdrMark: nat := NecHdrMarkTicks * NecTick
  const NecHdrSpaceTicks: nat := 8
  const NecHdrSpace: nat := NecHdrSpaceTicks * NecTick
  const NecBitMarkTicks: nat := 1
  const NecBitMark: nat := NecBitMarkTicks * NecTick
  const NecOneSpaceTicks: nat := 3
  const NecOneSpace: nat := NecOneSpaceTicks * NecTick
  const NecZeroSpaceTicks: nat := 1
  const NecZeroSpace: nat := NecZeroSpaceTicks * NecTick
  /** Used as a duration in microseconds, not multiplied by the tick. */
  const PioneerCodeSeparatorTicks: nat := 989
  const NecRptSpaceTicks: nat := 4
  const NecRptSpace: nat := NecRptSpaceTicks * NecTick
  const NecMinCommandLengthTicks: nat := 193
  const NecMinCommandLength: nat := NecMinCommandLengthTicks * NecTick

  /** The bits of one NEC code; the header defining it is not part of this
      model, and 32 is the NEC standard's code length. */
  const NecBits: nat := 32

  /** The gap that makes a full command of ones last the minimum command
      length. */
  const NecMinGap: nat :=
    NecMinCommandLength - (NecHdrMark + NecHdrSpace + NecBits * (NecBitMark + NecOneSpace) + NecBitMark)
  const NecMinGapTicks: nat :=
    NecMinCommandLengthTicks -
    (NecHdrMarkTicks + NecHdrSpaceTicks + NecBits * (NecBitMarkTicks + NecOneSpaceTicks) + NecBitMarkTicks)

  /** The gap computed in microseconds is the gap computed in ticks, times
      the tick, and it is positive. */
  lemma MinGapInTicks()
    ensures NecMinGap == NecMinGapTicks * NecTick
    ensures NecMinGap == 22400 && NecMinGapTicks == 40
  {
  }

  /** The timing of each NEC code. */
  const NecTiming: Timing :=
    Timing(NecHdrMark, NecHdrSpace, NecBitMark, NecOneSpace, NecBitMark, NecZeroSpace, NecBitMark, NecMinGap)

  /** The separator: a bit mark and the separator space, no data. */
  const SeparatorTiming: Timing := Timing(NecBitMark, PioneerCodeSeparatorTicks, 0, 0, 0, 0, 0, 0)

  /** The NEC repeat frame: header mark, repeat space, a bit mark, then the
      gap. */
  const RepeatTiming: Timing := Timing(NecHdrMark, NecRptSpace, 0, 0, 0, 0, NecBitMark, NecMinGap)

  /** The first code: the word shifted right by 32. */
  function HighCode(data: nat): nat {
    data / 0x1_0000_0000
  }

  /** The second code: the word masked with 0xFFFFFFFF. */
  function LowCode(data: nat): (r: nat)
    ensures r < 0x1_0000_0000
  {
    data % 0x1_0000_0000
  }

  /** One NEC code frame of `n` bits, most significant first, stretched to
      the minimum command length. */
  function CodeFrame(code: nat, n: nat): seq<Pulse> {
    SendWord(NecTiming, code, n, true, NecMinCommandLength, 0)
  }

  /** The optional repeat part: nothing without repeats, otherwise the
      repeat frame `repeat` times. */
  function RepeatPart(repeat: nat): (ps: seq<Pulse>)
    ensures repeat == 0 <==> ps == []
  {
    if repeat > 0 then SendGeneric(RepeatTiming, [], NecMinCommandLength, repeat - 1) else []
  }

  /** Everything `sendPioneer` emits. */
  function PioneerPulses(data: nat, nbits: nat, repeat: nat): seq<Pulse> {
    CodeFrame(HighCode(data), nbits / 2) + SendGeneric(SeparatorTiming, [], 0, 0) +
    CodeFrame(LowCode(data), nbits / 2) + RepeatPart(repeat)
  }

  /** `sendPioneer`: the high code, the separator, the low code, and the
      repeat frame only when `repeat` is not zero. */
  method SendPioneer(data: nat, nbits: uint16, repeat: uint16) returns (ps: seq<Pulse>)
    ensures ps == PioneerPulses(data, nbits, repeat)
  {
    var necCode1 := data;
    necCode1 := necCode1 / 0x1_0000_0000;
    var necCode2 := data % 0x1_0000_0000;
    ps := SendWord(NecTiming, necCode1, nbits / 2, true, NecMinCommandLength, 0);
    ps := ps + SendGeneric(SeparatorTiming, [], 0, 0);
    ps := ps + SendWord(NecTiming, necCode2, nbits / 2, true, NecMinCommandLength, 0);
    if repeat > 0 {
      ps := ps + SendGeneric(RepeatTiming, [], NecMinCommandLength, repeat - 1);
    }
  }

  // ---------------------------------------------------------------------
  // The shape of what is sent

  /** The separator is exactly one mark of a bit mark's length and one
      space of 989 microseconds. */
  lemma SeparatorPulses()
    ensures SendGeneric(SeparatorTiming, [], 0, 0) == [Mark(NecBitMark), Space(PioneerCodeSeparatorTicks)]
  {
    var body := FrameBody(SeparatorTiming, []);
    assert body == [Mark(NecBitMark), Space(PioneerCodeSeparatorTicks)];
  }

  /** The repeat frame: header mark, repeat space, bit mark, and the space
      that stretches it to the minimum command length. */
  lemma RepeatFramePulses()
    ensures Frame(RepeatTiming, [], NecMinCommandLength) ==
            [Mark(8960), Space(2240), Mark(560), Space(NecMinCommandLength - 11760)]
  {
    var body := FrameBody(RepeatTiming, []);
    assert body == [Mark(8960)] + [Space(2240), Mark(560)];
    ElapsedAppend([Mark(8960)], [Space(2240), Mark(560)]);
    ElapsedAppend([Space(2240)], [Mark(560)]);
    ElapsedOne(Mark(8960));
    ElapsedOne(Space(2240));
    ElapsedOne(Mark(560));
  }

  /** Every code frame lasts at least the minimum command length. */
  lemma CodeFrameLasts(code: nat, n: nat)
    ensures Elapsed(CodeFrame(code, n)) >= NecMinCommandLength
  {
    var bits := WordBits(code, n, true);
    var body := FrameBody(NecTiming, bits);
    var frame := Frame(NecTiming, bits, NecMinCommandLength);
    var d := TrailingSpace(NecTiming, Elapsed(body), NecMinCommandLength);
    assert frame == body + SpaceIf(d);
    ElapsedAppend(body, SpaceIf(d));
    ElapsedOne(Space(d));
    assert Elapsed(SpaceIf(d)) == d;
    assert Elapsed(frame) >= NecMinCommandLength;
    assert CodeFrame(code, n) == Repeated(frame, 1) == frame + [] == frame;
  }

  /** Splitting a word's bits: the top `a` of `a + b` bits are the bits of
      the quotient by 2^b, the rest those of the remainder. */
  lemma {:induction false} MsbBitsSplit(x: nat, a: nat, b: nat, q: nat, r: nat)
    requires q == x / Pow2(b) && r == x % Pow2(b)
    ensures MsbBits(x, a + b) == MsbBits(q, a) + MsbBits(r, b)
    decreases b
  {
    if b > 0 {
      var p := Pow2(b - 1);
      DivModStep(x, p);
      MsbBitsSplit(x / 2, a, b - 1, q, (x / 2) % p);
      DivModUnique(r, 2, (x / 2) % p, x % 2);
    }
  }

  /** For a 64-bit send of a 64-bit word, the two codes carry exactly the
      word's 64 bits, high half first, and they recombine to the word. */
  lemma CodesCarryWord(data: nat)
    requires IsWord(data)
    ensures MsbBits(HighCode(data), 32) + MsbBits(LowCode(data), 32) == MsbBits(data, 64)
    ensures HighCode(data) < 0x1_0000_0000
    ensures HighCode(data) * 0x1_0000_0000 + LowCode(data) == data
  {
    Pow2Of32();
    MsbBitsSplit(data, 32, 32, HighCode(data), LowCode(data));
    Pow2Of64();
  }

  /** The whole send: the high code frame, the separator pair, the low code
      frame, then `repeat` repeat frames. */
  lemma PioneerShape(data: nat, nbits: nat, repeat: nat)
    ensures PioneerPulses(data, nbits, repeat) ==
            Frame(NecTiming, MsbBits(HighCode(data), nbits / 2), NecMinCommandLength) +
            [Mark(NecBitMark), Space(PioneerCodeSeparatorTicks)] +
            Frame(NecTiming, MsbBits(LowCode(data), nbits / 2), NecMinCommandLength) +
            Repeated([Mark(8960), Space(2240), Mark(560), Space(NecMinCommandLength - 11760)], repeat)
  {
    SeparatorPulses();
    RepeatPartIs(repeat);
    CodeFrameIs(HighCode(data), nbits / 2);
    CodeFrameIs(LowCode(data), nbits / 2);
  }

  /** A code frame is sent once. */
  lemma CodeFrameIs(code: nat, n: nat)
    ensures CodeFrame(code, n) == Frame(NecTiming, MsbBits(code, n), NecMinCommandLength)
  {
    var f := Frame(NecTiming, MsbBits(code, n), NecMinCommandLength);
    assert CodeFrame(code, n) == f + [];
  }

  /** The repeat part is `repeat` copies of the repeat frame. */
  lemma RepeatPartIs(repeat: nat)
    ensures RepeatPart(repeat) ==
            Repeated([Mark(8960), Space(2240), Mark(560), Space(NecMinCommandLength - 11760)], repeat)
  {
    RepeatFramePulses();
  }
}

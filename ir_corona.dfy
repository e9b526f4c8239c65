/** Corona A/C: a 21-byte state sent as three 7-byte sections, each section
    its own generic frame (src/ir_Corona.cpp).

    Every section is `B0 B1 Label D0 ~D0 D1 ~D1`: two fixed prefix bytes, a
    label that names the section, and two data bytes each followed by its
    complement. A short message is a single section carrying the label of
    "section 3". */
module Corona {
  import opened Bits
  import opened ByteFields
  import opened Wrappers
  import opened IrSignal

  const SectionBytes: nat := 7
  const Sections: nat := 3
  const StateLength: nat := 21
  const CoronaAcBits: nat := 168
  const CoronaAcBitsShort: nat := 56
  const OverheadShort: nat := 3
  const Overhead: nat := 11

  /** The fixed prefix of every section. */
  const SectionB0: uint8 := 0x28
  const SectionB1: uint8 := 0x61

  /** Byte positions inside a section. */
  const B0Pos: nat := 0
  const B1Pos: nat := 1
  const LabelPos: nat := 2
  const D0Pos: nat := 3
  const D0InvPos: nat := 4
  const D1Pos: nat := 5
  const D1InvPos: nat := 6

  /** Header 3500/1680, bit mark 450, one space 1270, zero space 420, footer
      mark 450, gap 10800 microseconds. */
  const CoronaTiming: Timing := Timing(3500, 1680, 450, 1270, 450, 420, 450, 10800)

  // ---------------------------------------------------------------------
  // Section labels and section validation

  /** The label byte of a section (`getSectionByte`). */
  function SectionByte(labelBase: uint8, section: nat): uint8 {
    if section >= Sections then SetBit8(SetBit8(labelBase, 4, true), 7, true)
    else SetBits8(labelBase, Field(4, 4), 3 * Pow2(section))
  }

  /** A section's label is the label base with bits 4..7 replaced by
      `0b11 << section`; the short message's label ("section 3" and above)
      is the base with bits 4 and 7 set (`0b10010000 | base`). */
  lemma SectionByteBits(labelBase: uint8, section: nat)
    ensures var b := SectionByte(labelBase, section);
      GetBits8(b, Field(0, 4)) == GetBits8(labelBase, Field(0, 4)) &&
      (section < Sections ==> GetBits8(b, Field(4, 4)) == 3 * Pow2(section)) &&
      (section >= Sections ==>
         GetBit8(b, 4) && GetBit8(b, 7) && GetBits8(b, Field(5, 2)) == GetBits8(labelBase, Field(5, 2)))
  {
    if section >= Sections {
      var b4 := SetBit8(labelBase, 4, true);
      GetSetBit8(labelBase, 4, true);
      GetSetBit8(b4, 7, true);
      GetSetOtherBits8(b4, Field(7, 1), Field(4, 1), 1);
      GetSetOtherBits8(labelBase, Field(4, 1), Field(0, 4), 1);
      GetSetOtherBits8(b4, Field(7, 1), Field(0, 4), 1);
      GetSetOtherBits8(labelBase, Field(4, 1), Field(5, 2), 1);
      GetSetOtherBits8(b4, Field(7, 1), Field(5, 2), 1);
    } else {
      var v := 3 * Pow2(section);
      assert Pow2(4) == 16 && v < 16;
      GetSetBits8Fits(labelBase, Field(4, 4), v);
      GetSetOtherBits8(labelBase, Field(4, 4), Field(0, 4), v);
    }
  }

  /** With a label base whose low nibble is 0xD the three sections are
      labelled 0x3D, 0x6D and 0xCD, as in the documented example message. */
  lemma SectionLabels(labelBase: uint8)
    requires GetBits8(labelBase, Field(0, 4)) == 0xD
    ensures SectionByte(labelBase, 0) == 0x3D
    ensures SectionByte(labelBase, 1) == 0x6D
    ensures SectionByte(labelBase, 2) == 0xCD
  {
    LabelValue(labelBase, 0, 0x3D);
    LabelValue(labelBase, 1, 0x6D);
    LabelValue(labelBase, 2, 0xCD);
  }

  lemma LabelValue(labelBase: uint8, section: nat, expected: uint8)
    requires section < Sections && GetBits8(labelBase, Field(0, 4)) == 0xD
    requires expected as nat == 0xD + 16 * (3 * Pow2(section))
    ensures SectionByte(labelBase, section) == expected
  {
    var b := SectionByte(labelBase, section);
    SectionByteBits(labelBase, section);
    ByteNibbles(b);
  }

  /** Whether the seven bytes at `pos` form section `section`: the position
      must be that of the section (the short message's section 3 sits at 0),
      the prefix and label must be right, and each data byte must be the
      complement of the byte after it. */
  predicate ValidSection(labelBase: uint8, state: seq<uint8>, pos: nat, section: nat)
    requires (section % Sections) * SectionBytes == pos ==> pos + SectionBytes <= |state|
  {
    (section % Sections) * SectionBytes == pos
    && state[pos + B0Pos] == SectionB0
    && state[pos + B1Pos] == SectionB1
    && state[pos + LabelPos] == SectionByte(labelBase, section)
    && state[pos + D0Pos] == Not8(state[pos + D0InvPos])
    && state[pos + D1Pos] == Not8(state[pos + D1InvPos])
  }

  /** The section at `pos` with its prefix, label and complement bytes
      written from its data bytes, every other byte kept. */
  function SealSection(s: seq<uint8>, pos: nat, lbl: uint8): (r: seq<uint8>)
    requires pos + SectionBytes <= |s|
    ensures |r| == |s|
    ensures forall i :: 0 <= i < |s| && !(pos <= i < pos + SectionBytes) ==> r[i] == s[i]
    ensures r[pos + D0Pos] == s[pos + D0Pos] && r[pos + D1Pos] == s[pos + D1Pos]
  {
    s[pos + B0Pos := SectionB0][pos + B1Pos := SectionB1][pos + LabelPos := lbl]
     [pos + D0InvPos := Not8(s[pos + D0Pos])][pos + D1InvPos := Not8(s[pos + D1Pos])]
  }

  /** A section is valid exactly when sealing it with its label changes
      nothing. */
  lemma ValidSectionIffSealed(labelBase: uint8, s: seq<uint8>, pos: nat, section: nat)
    requires pos + SectionBytes <= |s|
    ensures ValidSection(labelBase, s, pos, section) <==>
            (section % Sections) * SectionBytes == pos &&
            SealSection(s, pos, SectionByte(labelBase, section)) == s
  {
    var r := SealSection(s, pos, SectionByte(labelBase, section));
    if r == s {
      assert r[pos + D0InvPos] == s[pos + D0InvPos];
      assert r[pos + D1InvPos] == s[pos + D1InvPos];
    }
  }

  /** A valid section stays valid when bytes are added after the state. */
  lemma ValidSectionExtend(labelBase: uint8, s: seq<uint8>, t: seq<uint8>, pos: nat, section: nat)
    requires pos + SectionBytes <= |s|
    ensures ValidSection(labelBase, s + t, pos, section) == ValidSection(labelBase, s, pos, section)
  {
  }

  /** The three sections of a full state, each at its own position with its
      own label. */
  predicate AllSectionsValid(labelBase: uint8, s: seq<uint8>)
    requires |s| >= StateLength
  {
    ValidSection(labelBase, s, 0, 0) && ValidSection(labelBase, s, 7, 1) &&
    ValidSection(labelBase, s, 14, 2)
  }

  // ---------------------------------------------------------------------
  // The checksum: sealing every section

  /** The state after the checksum loop has sealed its first `n` sections. */
  function SealedUpTo(labelBase: uint8, s: seq<uint8>, n: nat): (r: seq<uint8>)
    requires n <= Sections && |s| >= StateLength
    ensures |r| == |s|
  {
    if n == 0 then s
    else SealSection(SealedUpTo(labelBase, s, n - 1), SectionBytes * (n - 1), SectionByte(labelBase, n - 1))
  }

  function Checksummed(labelBase: uint8, s: seq<uint8>): (r: seq<uint8>)
    requires |s| >= StateLength
    ensures |r| == |s|
  {
    SealedUpTo(labelBase, s, Sections)
  }

  /** The data bytes D0 and D1 of the three sections. */
  predicate IsDataByte(i: nat) {
    i in {D0Pos, D1Pos, 7 + D0Pos, 7 + D1Pos, 14 + D0Pos, 14 + D1Pos}
  }

  /** Whether byte `i` of a state is one the checksum writes. */
  predicate IsCheckByte(i: nat) {
    i < StateLength && !IsDataByte(i)
  }

  /** Writes the prefix, label and complement bytes of all three sections. */
  method Checksum(labelBase: uint8, data: array<uint8>)
    requires data.Length >= StateLength
    modifies data
    ensures data[..] == Checksummed(labelBase, old(data[..]))
  {
    ghost var s := data[..];
    var section := 0;
    while section < Sections
      invariant section <= Sections
      invariant data[..] == SealedUpTo(labelBase, s, section)
    {
      var pos := section * SectionBytes;
      data[pos + B0Pos] := SectionB0;
      data[pos + B1Pos] := SectionB1;
      data[pos + LabelPos] := SectionByte(labelBase, section);
      data[pos + D0InvPos] := Not8(data[pos + D0Pos]);
      data[pos + D1InvPos] := Not8(data[pos + D1Pos]);
      section := section + 1;
    }
  }

  /** After the checksum every section of the state is valid. */
  lemma ChecksummedValid(labelBase: uint8, s: seq<uint8>)
    requires |s| >= StateLength
    ensures AllSectionsValid(labelBase, Checksummed(labelBase, s))
  {
    var s1 := SealedUpTo(labelBase, s, 1);
    var s2 := SealedUpTo(labelBase, s, 2);
    var s3 := SealedUpTo(labelBase, s, 3);
    assert ValidSection(labelBase, s1, 0, 0);
    assert forall i :: 0 <= i < 7 ==> s3[i] == s2[i] == s1[i];
    assert ValidSection(labelBase, s2, 7, 1);
    assert forall i :: 7 <= i < 14 ==> s3[i] == s2[i];
  }

  /** The checksum writes only the prefix, label and complement bytes: the
      data bytes D0 and D1 of every section, and everything after the
      sections, are kept. */
  lemma ChecksummedKeepsData(labelBase: uint8, s: seq<uint8>)
    requires |s| >= StateLength
    ensures forall i :: 0 <= i < |s| && !IsCheckByte(i) ==> Checksummed(labelBase, s)[i] == s[i]
  {
    var s1 := SealedUpTo(labelBase, s, 1);
    var s2 := SealedUpTo(labelBase, s, 2);
    assert SealedUpTo(labelBase, s, 0) == s;
    assert s1 == SealSection(s, 0, SectionByte(labelBase, 0));
    assert s2 == SealSection(s1, 7, SectionByte(labelBase, 1));
    assert Checksummed(labelBase, s) == SealSection(s2, 14, SectionByte(labelBase, 2));
    SealKeepsData(s, 0, SectionByte(labelBase, 0));
    SealKeepsData(s1, 7, SectionByte(labelBase, 1));
    SealKeepsData(s2, 14, SectionByte(labelBase, 2));
  }

  lemma SealKeepsData(s: seq<uint8>, pos: nat, lbl: uint8)
    requires pos in {0, 7, 14} && |s| >= StateLength
    ensures forall i :: 0 <= i < |s| && !IsCheckByte(i) ==> SealSection(s, pos, lbl)[i] == s[i]
  {
  }

  /** Running the checksum a second time changes nothing. */
  lemma ChecksumIdempotent(labelBase: uint8, s: seq<uint8>)
    requires |s| >= StateLength
    ensures Checksummed(labelBase, Checksummed(labelBase, s)) == Checksummed(labelBase, s)
  {
    ChecksummedValid(labelBase, s);
    ValidIffChecksummed(labelBase, Checksummed(labelBase, s));
  }

  /** A state is valid in all three sections exactly when the checksum
      leaves it unchanged. */
  lemma ValidIffChecksummed(labelBase: uint8, s: seq<uint8>)
    requires |s| >= StateLength
    ensures AllSectionsValid(labelBase, s) <==> Checksummed(labelBase, s) == s
  {
    if AllSectionsValid(labelBase, s) {
      ValidSectionIffSealed(labelBase, s, 0, 0);
      assert SealedUpTo(labelBase, s, 1) == s;
      ValidSectionIffSealed(labelBase, s, 7, 1);
      assert SealedUpTo(labelBase, s, 2) == s;
      ValidSectionIffSealed(labelBase, s, 14, 2);
    } else {
      ChecksummedValid(labelBase, s);
    }
  }

  // ---------------------------------------------------------------------
  // Sending

  /** One section as its own generic frame, least significant bit first,
      with no repeat. */
  function SectionFrame(data: seq<uint8>, pos: nat): seq<Pulse>
    requires pos + SectionBytes <= |data|
  {
    SendBytes(CoronaTiming, data[pos .. pos + SectionBytes], false, 0)
  }

  /** The frames of the first `n` sections, one after the other. */
  function SectionFrames(data: seq<uint8>, n: nat): seq<Pulse>
    requires SectionBytes * n <= |data|
  {
    if n == 0 then [] else SectionFrames(data, n - 1) + SectionFrame(data, SectionBytes * (n - 1))
  }

  /** Sections sent per round: one for a 7-byte message, all three for a
      full one. */
  function SentSections(nbytes: nat): nat {
    if nbytes <= SectionBytes then 1 else Sections
  }

  /** Whether `sendCoronaAc` sends anything for `nbytes` bytes. */
  predicate SendsFor(nbytes: nat) {
    !(nbytes < SectionBytes || (SectionBytes < nbytes && nbytes < StateLength))
  }

  /** The pulses of `sendCoronaAc`: nothing for a length it refuses,
      otherwise `repeat + 1` rounds of one or three section frames. The
      round counter is 16 bits wide and the loop runs while it is at most
      `repeat`, so a `repeat` of 0xFFFF never ends; only smaller counts
      describe a send that finishes. */
  function CoronaAcPulses(data: seq<uint8>, nbytes: nat, repeat: nat): (ps: seq<Pulse>)
    requires nbytes <= |data|
    requires repeat < 0xFFFF
    ensures SendsFor(nbytes) ==> |ps| == (repeat + 1) * (SentSections(nbytes) * 116)
    ensures !SendsFor(nbytes) ==> ps == []
  {
    if !SendsFor(nbytes) then []
    else
      var n := SentSections(nbytes);
      SectionFramesLength(data, n);
      Repeated(SectionFrames(data, n), repeat + 1)
  }

  /** Every section frame is 116 pulses long: header mark and space, 56
      bits, footer mark and gap. */
  lemma {:induction false} SectionFramesLength(data: seq<uint8>, n: nat)
    requires SectionBytes * n <= |data|
    ensures |SectionFrames(data, n)| == n * 116
  {
    if n > 0 {
      SectionFramesLength(data, n - 1);
      var pos := SectionBytes * (n - 1);
      FrameLength(CoronaTiming, BytesBits(data[pos .. pos + SectionBytes], false), 0);
    }
  }

  /** `sendCoronaAc`: for each of the `repeat + 1` rounds, the sections in
      order, stopping once the bytes sent reach `nbytes`. */
  method SendCoronaAc(data: seq<uint8>, nbytes: uint16, repeat: uint16) returns (ps: seq<Pulse>)
    requires nbytes <= |data|
    requires repeat < 0xFFFF
    ensures ps == CoronaAcPulses(data, nbytes, repeat)
  {
    ps := [];
    if nbytes < SectionBytes { return; }
    if SectionBytes < nbytes && nbytes < StateLength { return; }
    ghost var round := SectionFrames(data, SentSections(nbytes));
    var r: uint16 := 0;
    while r <= repeat
      invariant r <= repeat + 1
      invariant ps == Repeated(round, r)
    {
      var pos := 0;
      var section := 0;
      var sent := [];
      while section < Sections
        invariant section <= SentSections(nbytes)
        invariant section == 0 || pos < nbytes
        invariant pos == SectionBytes * section
        invariant sent == SectionFrames(data, section)
      {
        sent := sent + SendBytes(CoronaTiming, data[pos .. pos + SectionBytes], false, 0);
        pos := pos + SectionBytes;
        section := section + 1;
        if nbytes <= pos { break; }
      }
      RepeatedAppend(round, r + 1);
      ps := ps + sent;
      r := r + 1;
    }
  }

  // ---------------------------------------------------------------------
  // Decoding

  /** A decoded Corona message: the bit count and the bytes read. */
  datatype CoronaAcMessage = CoronaAcMessage(bits: nat, state: seq<uint8>)

  /** Whether the capture is long enough to be a full three-section message. */
  predicate IsLong(raw: seq<nat>) { |raw| >= CoronaAcBits * 2 }

  /** Every whole section among the decoded bytes is valid, each checked
      as its own section in a long capture and as the short message's
      section 3 in a short one. */
  predicate SectionsValid(labelBase: uint8, st: seq<uint8>, isLong: bool)
    requires |st| <= StateLength
  {
    (|st| >= 7 ==> ValidSection(labelBase, st, 0, if isLong then 0 else Sections)) &&
    (|st| >= 14 ==> ValidSection(labelBase, st, 7, if isLong then 1 else Sections)) &&
    (|st| >= 21 ==> ValidSection(labelBase, st, 14, if isLong then 2 else Sections))
  }

  /** A matcher of one section frame at an offset of a capture. */
  type SectionMatcher = (seq<nat>, nat) -> Option<BytesMatch>

  /** Every section it matches is seven bytes long. */
  ghost predicate ReadsSections(sm: SectionMatcher) {
    forall raw, offset :: sm(raw, offset).Some? ==> |sm(raw, offset).value.bytes| == SectionBytes
  }

  /** The generic match `decodeCoronaAc` makes for each section: 56 bits,
      least significant first, with the timing of a section frame and the
      trailing gap read as "at least the gap". */
  function CoronaSectionMatch(m: Matcher): (sm: SectionMatcher)
    ensures ReadsSections(sm)
  {
    (raw: seq<nat>, offset: nat) => MatchGenericBytes(m, raw, offset, CoronaAcBitsShort, CoronaTiming, true, false)
  }

  /** The section loop of `decodeCoronaAc` from section `section` on, with
      the bytes `state` read so far and the capture cursor at `offset`. */
  function DecodeSections(sm: SectionMatcher, labelBase: uint8, raw: seq<nat>, offset: nat, section: nat,
                          isLong: bool, strict: bool, state: seq<uint8>): (r: Option<seq<uint8>>)
    requires ReadsSections(sm)
    requires section <= Sections && |state| == SectionBytes * section
    ensures r.Some? ==> |r.value| <= StateLength && |r.value| % SectionBytes == 0
    ensures r.Some? ==> |state| < |r.value| || section == Sections
    decreases Sections - section
  {
    if section == Sections then Some(state)
    else
      match sm(raw, offset)
      case None => None
      case Some(bm) =>
        var st := state + bm.bytes;
        if strict && !ValidSection(labelBase, st, SectionBytes * section, if isLong then section else Sections) then None
        else if |raw| <= offset + bm.used then Some(st)
        else DecodeSections(sm, labelBase, raw, offset + bm.used, section + 1, isLong, strict, st)
  }

  /** In strict mode every section the loop adds is valid, so what it
      returns is valid throughout. */
  lemma {:induction false} DecodeSectionsValid(sm: SectionMatcher, labelBase: uint8, raw: seq<nat>, offset: nat,
                                               section: nat, isLong: bool, state: seq<uint8>)
    requires ReadsSections(sm)
    requires section <= Sections && |state| == SectionBytes * section
    requires SectionsValid(labelBase, state, isLong)
    ensures var r := DecodeSections(sm, labelBase, raw, offset, section, isLong, true, state);
            r.Some? ==> SectionsValid(labelBase, r.value, isLong)
    decreases Sections - section
  {
    var r := DecodeSections(sm, labelBase, raw, offset, section, isLong, true, state);
    if section == Sections {
      assert r == Some(state);
    } else if sm(raw, offset).None? {
      assert r == None;
    } else {
      var bm := sm(raw, offset).value;
      var st := state + bm.bytes;
      DecodeSectionsStep(sm, labelBase, raw, offset, section, isLong, true, state, bm);
      if !ValidSection(labelBase, st, SectionBytes * section, if isLong then section else Sections) {
        assert r == None;
      } else {
        SectionsValidStep(labelBase, state, bm.bytes, section, isLong);
        if |raw| > offset + bm.used {
          assert r == DecodeSections(sm, labelBase, raw, offset + bm.used, section + 1, isLong, true, st);
          DecodeSectionsValid(sm, labelBase, raw, offset + bm.used, section + 1, isLong, st);
        } else {
          assert r == Some(st);
        }
      }
    }
  }

  /** A valid section appended to valid sections keeps them all valid. */
  lemma SectionsValidStep(labelBase: uint8, state: seq<uint8>, bytes: seq<uint8>, section: nat, isLong: bool)
    requires section < Sections && |state| == SectionBytes * section && |bytes| == SectionBytes
    requires SectionsValid(labelBase, state, isLong)
    requires ValidSection(labelBase, state + bytes, SectionBytes * section, if isLong then section else Sections)
    ensures SectionsValid(labelBase, state + bytes, isLong)
  {
    if section > 0 { ValidSectionExtend(labelBase, state, bytes, 0, if isLong then 0 else Sections); }
    if section > 1 { ValidSectionExtend(labelBase, state, bytes, 7, if isLong then 1 else Sections); }
  }

  /** `decodeCoronaAc`: the length guard, the strict bit-count check, the
      section loop, and the strict check of the total length. */
  function CoronaAcDecodingWith(sm: SectionMatcher, labelBase: uint8, raw: seq<nat>, offset: nat, nbits: nat,
                                strict: bool): (r: Option<CoronaAcMessage>)
    requires ReadsSections(sm)
    ensures r.Some? ==> |raw| >= 2 * nbits + (if IsLong(raw) then Overhead else OverheadShort) - offset
    ensures r.Some? ==> r.value.bits == 8 * |r.value.state| &&
                        |r.value.state| in {SectionBytes, 2 * SectionBytes, StateLength}
    ensures r.Some? && strict ==>
      nbits in {CoronaAcBits, CoronaAcBitsShort} && r.value.bits in {CoronaAcBits, CoronaAcBitsShort}
  {
    var isLong := IsLong(raw);
    if |raw| < 2 * nbits + (if isLong then Overhead else OverheadShort) - offset then None
    else if strict && nbits != CoronaAcBits && nbits != CoronaAcBitsShort then None
    else
      match DecodeSections(sm, labelBase, raw, offset, 0, isLong, strict, [])
      case None => None
      case Some(st) =>
        if strict && 8 * |st| != CoronaAcBits && 8 * |st| != CoronaAcBitsShort then None
        else Some(CoronaAcMessage(8 * |st|, st))
  }

  /** `decodeCoronaAc` with the generic section match it makes. */
  function CoronaAcDecoding(m: Matcher, labelBase: uint8, raw: seq<nat>, offset: nat, nbits: nat,
                            strict: bool): Option<CoronaAcMessage>
  {
    CoronaAcDecodingWith(CoronaSectionMatch(m), labelBase, raw, offset, nbits, strict)
  }

  /** In strict mode every decoded section is valid: each as its own
      section in a long capture, and in a short capture the single section
      as the short message's section 3. */
  lemma StrictDecodingValid(sm: SectionMatcher, labelBase: uint8, raw: seq<nat>, offset: nat, nbits: nat)
    requires ReadsSections(sm)
    ensures var r := CoronaAcDecodingWith(sm, labelBase, raw, offset, nbits, true);
            r.Some? ==> SectionsValid(labelBase, r.value.state, IsLong(raw)) &&
                        (!IsLong(raw) ==> |r.value.state| == SectionBytes)
  {
    DecodeSectionsValid(sm, labelBase, raw, offset, 0, IsLong(raw), []);
  }

  /** One turn of the section loop: a matched section that passes the
      strict check either ends the loop, when the capture is used up, or
      hands over to the next section. */
  lemma DecodeSectionsStep(sm: SectionMatcher, labelBase: uint8, raw: seq<nat>, offset: nat, section: nat,
                           isLong: bool, strict: bool, state: seq<uint8>, bm: BytesMatch)
    requires ReadsSections(sm)
    requires section < Sections && |state| == SectionBytes * section
    requires sm(raw, offset) == Some(bm)
    ensures var st := state + bm.bytes;
            DecodeSections(sm, labelBase, raw, offset, section, isLong, strict, state) ==
            if strict && !ValidSection(labelBase, st, SectionBytes * section, if isLong then section else Sections) then None
            else if |raw| <= offset + bm.used then Some(st)
            else DecodeSections(sm, labelBase, raw, offset + bm.used, section + 1, isLong, strict, st)
  {
  }

  /** `decodeCoronaAc` as a loop over the sections. */
  method DecodeCoronaAc(sm: SectionMatcher, labelBase: uint8, raw: seq<nat>, offset: uint16, nbits: uint16,
                        strict: bool) returns (r: Option<CoronaAcMessage>)
    requires ReadsSections(sm)
    ensures r == CoronaAcDecodingWith(sm, labelBase, raw, offset, nbits, strict)
  {
    var isLong := |raw| >= CoronaAcBits * 2;
    if |raw| < 2 * nbits + (if isLong then Overhead else OverheadShort) - offset {
      return None;
    }
    if strict && nbits != CoronaAcBits && nbits != CoronaAcBitsShort {
      return None;
    }
    var st := ReadSections(sm, labelBase, raw, offset, isLong, strict);
    if st.None? {
      return None;
    }
    var pos := |st.value|;
    if strict && pos * 8 != CoronaAcBits && pos * 8 != CoronaAcBitsShort {
      return None;
    }
    r := Some(CoronaAcMessage(pos * 8, st.value));
  }

  /** The section loop of `decodeCoronaAc`. */
  method ReadSections(sm: SectionMatcher, labelBase: uint8, raw: seq<nat>, offset: nat, isLong: bool,
                      strict: bool) returns (r: Option<seq<uint8>>)
    requires ReadsSections(sm)
    ensures r == DecodeSections(sm, labelBase, raw, offset, 0, isLong, strict, [])
  {
    var pos := 0;
    var state: seq<uint8> := [];
    var off: nat := offset;
    var section := 0;
    ghost var whole := DecodeSections(sm, labelBase, raw, offset, 0, isLong, strict, []);
    while section < Sections
      invariant section <= Sections && pos == SectionBytes * section && |state| == pos
      invariant whole == DecodeSections(sm, labelBase, raw, off, section, isLong, strict, state)
      decreases Sections - section
    {
      var used := sm(raw, off);
      if used.None? { return None; }
      DecodeSectionsStep(sm, labelBase, raw, off, section, isLong, strict, state, used.value);
      state := state + used.value.bytes;
      if strict && !ValidSection(labelBase, state, pos, if isLong then section else Sections) {
        return None;
      }
      off := off + used.value.used;
      pos := pos + SectionBytes;
      section := section + 1;
      if |raw| <= off {
        assert whole == Some(state);
        break;
      }
    }
    assert whole == Some(state);
    return Some(state);
  }

  // ---------------------------------------------------------------------
  // Round trips

  lemma SectionFrameDecodes(m: Matcher, raw: seq<nat>, offset: nat, data: seq<uint8>, pos: nat)
    requires Exact(m) && Separates(m, CoronaTiming)
    requires pos + SectionBytes <= |data|
    requires HoldsAt(raw, offset, SectionFrame(data, pos))
    ensures CoronaSectionMatch(m)(raw, offset) == Some(BytesMatch(data[pos .. pos + SectionBytes], 116))
  {
    var bytes := data[pos .. pos + SectionBytes];
    var bits := BytesBits(bytes, false);
    assert SectionFrame(data, pos) == Frame(CoronaTiming, bits, 0);
    FrameLength(CoronaTiming, bits, 0);
    MatchGenericBytesOfFrame(m, raw, offset, CoronaTiming, bytes, true, false);
  }

  /** A full message sent once is decoded back into the same 21 bytes; in
      strict mode this needs the sections to be valid, as `getRaw`'s
      checksum makes them. */
  lemma DecodesFullMessage(m: Matcher, labelBase: uint8, data: seq<uint8>, lead: nat, strict: bool)
    requires Exact(m) && Separates(m, CoronaTiming)
    requires |data| == StateLength
    requires strict ==> AllSectionsValid(labelBase, data)
    ensures CoronaAcDecoding(m, labelBase, Capture(lead, CoronaAcPulses(data, StateLength, 0)), 1,
                             CoronaAcBits, strict) == Some(CoronaAcMessage(CoronaAcBits, data))
  {
    var raw := Capture(lead, CoronaAcPulses(data, StateLength, 0));
    FullCapture(data, lead);
    FullCaptureMatches(m, raw, data);
    FullSections(CoronaSectionMatch(m), labelBase, raw, data, strict);
  }

  /** The three section frames of a full capture are each matched as the
      corresponding seven bytes of `data`. */
  lemma FullCaptureMatches(m: Matcher, raw: seq<nat>, data: seq<uint8>)
    requires Exact(m) && Separates(m, CoronaTiming)
    requires |data| == StateLength
    requires HoldsAt(raw, 1, SectionFrame(data, 0)) && HoldsAt(raw, 117, SectionFrame(data, 7)) &&
             HoldsAt(raw, 233, SectionFrame(data, 14))
    ensures CoronaSectionMatch(m)(raw, 1) == Some(BytesMatch(data[0..7], 116))
    ensures CoronaSectionMatch(m)(raw, 117) == Some(BytesMatch(data[7..14], 116))
    ensures CoronaSectionMatch(m)(raw, 233) == Some(BytesMatch(data[14..21], 116))
  {
    assert CoronaSectionMatch(m)(raw, 1) == Some(BytesMatch(data[0..7], 116)) by {
      SectionFrameDecodes(m, raw, 1, data, 0);
    }
    assert CoronaSectionMatch(m)(raw, 117) == Some(BytesMatch(data[7..14], 116)) by {
      SectionFrameDecodes(m, raw, 117, data, 7);
    }
    SectionFrameDecodes(m, raw, 233, data, 14);
  }

  /** The capture of a full message sent once holds its three section
      frames one after the other from index 1 on. */
  lemma FullCapture(data: seq<uint8>, lead: nat)
    requires |data| == StateLength
    ensures var raw := Capture(lead, CoronaAcPulses(data, StateLength, 0));
            |raw| == 349 && HoldsAt(raw, 1, SectionFrame(data, 0)) &&
            HoldsAt(raw, 117, SectionFrame(data, 7)) && HoldsAt(raw, 233, SectionFrame(data, 14))
  {
    var f0, f1, f2 := SectionFrame(data, 0), SectionFrame(data, 7), SectionFrame(data, 14);
    var ps := CoronaAcPulses(data, StateLength, 0);
    assert SectionFrames(data, 1) == f0;
    assert SectionFrames(data, 2) == f0 + f1;
    assert SectionFrames(data, 3) == f0 + f1 + f2;
    assert ps == f0 + f1 + f2;
    var raw := Capture(lead, ps);
    SectionFramesLength(data, 1);
    SectionFramesLength(data, 2);
    SectionFramesLength(data, 3);
    CaptureHolds(lead, ps);
    HoldsAtSplit(raw, 1, f0 + f1, f2);
    HoldsAtSplit(raw, 1, f0, f1);
  }

  /** The section loop over a full capture whose three sections match
      the three sections of `data`, each 116 entries long. */
  lemma FullSections(sm: SectionMatcher, labelBase: uint8, raw: seq<nat>, data: seq<uint8>, strict: bool)
    requires ReadsSections(sm)
    requires |raw| == 349 && |data| == StateLength
    requires strict ==> AllSectionsValid(labelBase, data)
    requires sm(raw, 1) == Some(BytesMatch(data[0..7], 116))
    requires sm(raw, 117) == Some(BytesMatch(data[7..14], 116))
    requires sm(raw, 233) == Some(BytesMatch(data[14..21], 116))
    ensures CoronaAcDecodingWith(sm, labelBase, raw, 1, CoronaAcBits, strict) ==
            Some(CoronaAcMessage(CoronaAcBits, data))
  {
    var s1, s2 := data[..7], data[..14];
    assert [] + data[0..7] == s1;
    assert s1 + data[7..14] == s2;
    assert s2 + data[14..21] == data;
    if strict {
      ValidSectionExtend(labelBase, s1, data[7..], 0, 0);
      ValidSectionExtend(labelBase, s2, data[14..], 7, 1);
    }
    DecodeSectionsStep(sm, labelBase, raw, 1, 0, true, strict, [], BytesMatch(data[0..7], 116));
    DecodeSectionsStep(sm, labelBase, raw, 117, 1, true, strict, s1, BytesMatch(data[7..14], 116));
    DecodeSectionsStep(sm, labelBase, raw, 233, 2, true, strict, s2, BytesMatch(data[14..21], 116));
  }

  /** A short message (one section labelled as section 3) sent once is
      decoded back into the same 7 bytes. */
  lemma DecodesShortMessage(m: Matcher, labelBase: uint8, data: seq<uint8>, lead: nat, strict: bool)
    requires Exact(m) && Separates(m, CoronaTiming)
    requires |data| == SectionBytes
    requires strict ==> ValidSection(labelBase, data, 0, Sections)
    ensures CoronaAcDecoding(m, labelBase, Capture(lead, CoronaAcPulses(data, SectionBytes, 0)), 1,
                             CoronaAcBitsShort, strict) == Some(CoronaAcMessage(CoronaAcBitsShort, data))
  {
    var ps := CoronaAcPulses(data, SectionBytes, 0);
    assert ps == SectionFrame(data, 0);
    var raw := Capture(lead, ps);
    CaptureHolds(lead, ps);
    SectionFrameDecodes(m, raw, 1, data, 0);
    ShortSection(CoronaSectionMatch(m), labelBase, raw, data, strict);
  }

  /** The section loop over a short capture whose one section matches
      `data`. */
  lemma ShortSection(sm: SectionMatcher, labelBase: uint8, raw: seq<nat>, data: seq<uint8>, strict: bool)
    requires ReadsSections(sm)
    requires |raw| == 117 && |data| == SectionBytes
    requires strict ==> ValidSection(labelBase, data, 0, Sections)
    requires sm(raw, 1) == Some(BytesMatch(data[0..7], 116))
    ensures CoronaAcDecodingWith(sm, labelBase, raw, 1, CoronaAcBitsShort, strict) ==
            Some(CoronaAcMessage(CoronaAcBitsShort, data))
  {
    assert [] + data[0..7] == data;
    DecodeSectionsStep(sm, labelBase, raw, 1, 0, false, strict, [], BytesMatch(data[0..7], 116));
  }
}

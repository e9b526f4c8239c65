/** Mitsubishi Heavy Industries 88-bit (ZJ-S remotes) and 152-bit (ZM-S
    remotes) messages: the byte signature, the complement byte pairs that
    stand in for a checksum, the guarded senders and the byte-at-a-time
    decoder (src/ir_MitsubishiHeavy.cpp:30-71, 259-304, 620-653, 792-859).

    The signatures, their length and the message gap live in a header that
    is not part of this model; they are the parameters of `HeavyConsts`.
    The state bytes are `bv8`, so that the masks, shifts, complements and
    8-bit wrap-around of the source read as they are written. */
module MitsubishiHeavy {
  import opened Bits
  import opened Wrappers
  import opened IrSignal

  const StateLength88: nat := 11
  const StateLength152: nat := 19
  const Bits88: nat := 88
  const Bits152: nat := 152

  /** Entries of a header (mark and space) and of a footer (mark and gap),
      and the index of the first mark in a capture. */
  const Header: nat := 2
  const Footer: nat := 2
  const StartOffset: nat := 1

  /** The signature bytes and the message gap. */
  datatype HeavyConsts = HeavyConsts(sigLength: nat, zmsSig: seq<bv8>, zjsSig: seq<bv8>, gap: nat)
  {
    /** The pairs start at `sigLength - 2` and have to end inside the odd
        state lengths, so `sigLength` is odd; byte 5 holds data in both
        messages, so the signature ends before it. */
    predicate Valid() {
      (sigLength == 3 || sigLength == 5) && |zmsSig| == sigLength && |zjsSig| == sigLength
    }

    /** The first index of the complement pairs. */
    function PairStart(): nat
      requires Valid()
    {
      sigLength - 2
    }
  }

  /** The timing both messages share. */
  function HeavyTiming(gap: nat): Timing {
    Timing(3140, 1630, 370, 420, 370, 1220, 370, gap)
  }

  /** State bytes as the sender takes them, and received bytes as state. */
  function ToBytes(s: seq<bv8>): (r: seq<uint8>)
    ensures |r| == |s| && forall i :: 0 <= i < |s| ==> r[i] == s[i] as nat
  {
    seq(|s|, i requires 0 <= i < |s| => s[i] as nat)
  }

  function FromBytes(s: seq<uint8>): (r: seq<bv8>)
    ensures |r| == |s| && forall i :: 0 <= i < |s| ==> r[i] == s[i] as bv8
  {
    seq(|s|, i requires 0 <= i < |s| => s[i] as bv8)
  }

  lemma BytesConversion(s: seq<bv8>)
    ensures FromBytes(ToBytes(s)) == s
  {
  }

  // -------------------------------------------------------------------
  // Complement pairs

  /** Index `j` holds the inverse of the byte before it: every second
      index after `start`. */
  predicate IsInverseIndex(start: nat, j: nat) {
    j > start && (j - start) % 2 == 1
  }

  /** `checksum`: each byte at an inverse index replaced by the complement
      of the byte before it. */
  function Paired(s: seq<bv8>, start: nat): (r: seq<bv8>)
    ensures |r| == |s|
  {
    seq(|s|, j requires 0 <= j < |s| => if IsInverseIndex(start, j) then !s[j - 1] else s[j])
  }

  /** `checksum` part way: the pairs that start below `i` done. */
  ghost function PairedBelow(s: seq<bv8>, start: nat, i: nat): (r: seq<bv8>)
    ensures |r| == |s|
  {
    seq(|s|, j requires 0 <= j < |s| => if IsInverseIndex(start, j) && j < i then !s[j - 1] else s[j])
  }

  /** One more pair done. */
  lemma PairedBelowStep(s: seq<bv8>, start: nat, k: nat, i: nat)
    requires i == start + 2 * k && i + 1 < |s|
    ensures PairedBelow(s, start, i + 2) == PairedBelow(s, start, i)[i + 1 := !s[i]]
    ensures PairedBelow(s, start, i)[i] == s[i]
  {
    assert !IsInverseIndex(start, i) && IsInverseIndex(start, i + 1);
  }

  /** The loop of `checksum`, shared by both classes: from `start` in
      steps of two, the next byte becomes the complement. The last pair
      ends at the last byte. */
  method ChecksumPairs(a: array<bv8>, start: nat)
    requires start <= a.Length && (a.Length - start) % 2 == 0
    modifies a
    ensures a[..] == Paired(old(a[..]), start)
  {
    ghost var pairs := (a.Length - start) / 2;
    assert a.Length == start + 2 * pairs;
    var i := start;
    ghost var k := 0;
    while i < a.Length
      invariant i == start + 2 * k && k <= pairs
      invariant a[..] == PairedBelow(old(a[..]), start, i)
      decreases a.Length - i
    {
      PairedBelowStep(old(a[..]), start, k, i);
      a[i + 1] := !a[i];
      i, k := i + 2, k + 1;
    }
    assert PairedBelow(old(a[..]), start, i) == Paired(old(a[..]), start);
  }

  /** `validChecksum`: a state shorter than the signature passes; a longer
      one needs `state[i] ^ state[i + 1] == 0xFF` for every pair from
      `sigLength - 2` on that starts below `length`. Every such pair has to
      lie inside the state. */
  predicate PairsValid(s: seq<bv8>, sigLength: nat, length: nat)
    requires 2 <= sigLength && length <= |s|
    requires length < sigLength || (length - sigLength) % 2 == 0 || length < |s|
  {
    length < sigLength ||
    forall i :: sigLength - 2 <= i < length && (i - (sigLength - 2)) % 2 == 0 ==> s[i] ^ s[i + 1] == 0xFF
  }

  /** `validChecksum` as the loop the source runs. */
  method ValidChecksum(state: seq<bv8>, sigLength: nat, length: uint16) returns (ok: bool)
    requires 2 <= sigLength && length <= |state|
    requires length < sigLength || (length - sigLength) % 2 == 0 || length < |state|
    ensures ok == PairsValid(state, sigLength, length)
  {
    if length < sigLength {
      return true;
    }
    var i := sigLength - 2;
    while i < length
      invariant sigLength - 2 <= i && (i - (sigLength - 2)) % 2 == 0
      invariant i <= length + 1
      invariant forall j :: sigLength - 2 <= j < i && (j - (sigLength - 2)) % 2 == 0 ==> state[j] ^ state[j + 1] == 0xFF
      decreases length + 1 - i
    {
      if state[i] ^ state[i + 1] != 0xFF {
        return false;
      }
      i := i + 2;
    }
    return true;
  }

  /** After `checksum` every pair passes `validChecksum`. */
  lemma PairedValid(s: seq<bv8>, sigLength: nat)
    requires 2 <= sigLength <= |s| && (|s| - sigLength) % 2 == 0
    ensures PairsValid(Paired(s, sigLength - 2), sigLength, |s|)
  {
    var r := Paired(s, sigLength - 2);
    forall i | sigLength - 2 <= i < |s| && (i - (sigLength - 2)) % 2 == 0
      ensures r[i] ^ r[i + 1] == 0xFF
    {
      assert !IsInverseIndex(sigLength - 2, i) && IsInverseIndex(sigLength - 2, i + 1);
    }
  }

  /** `checksum` changes only the inverse indices and reads only the others,
      so running it twice is running it once. */
  lemma PairedIdempotent(s: seq<bv8>, start: nat)
    ensures Paired(Paired(s, start), start) == Paired(s, start)
    ensures forall j :: 0 <= j < |s| && !IsInverseIndex(start, j) ==> Paired(s, start)[j] == s[j]
  {
    var r := Paired(s, start);
    forall j | 0 <= j < |s| && IsInverseIndex(start, j)
      ensures Paired(r, start)[j] == r[j]
    {
      assert !IsInverseIndex(start, j - 1);
    }
  }

  /** A state passes `validChecksum` exactly when `checksum` would leave it
      as it is. */
  lemma ValidIffPaired(s: seq<bv8>, sigLength: nat)
    requires 2 <= sigLength <= |s| && (|s| - sigLength) % 2 == 0
    ensures PairsValid(s, sigLength, |s|) <==> Paired(s, sigLength - 2) == s
  {
    var start := sigLength - 2;
    if PairsValid(s, sigLength, |s|) {
      forall j | 0 <= j < |s| && IsInverseIndex(start, j)
        ensures Paired(s, start)[j] == s[j]
      {
        assert s[j - 1] ^ s[j] == 0xFF;
      }
      assert Paired(s, start) == s;
    }
    if Paired(s, start) == s {
      PairedValid(s, sigLength);
    }
  }

  // -------------------------------------------------------------------
  // Signatures

  /** `checkZmsSig` and `checkZjsSig`: the state starts with the signature. */
  predicate HasSignature(s: seq<bv8>, sig: seq<bv8>) {
    |sig| <= |s| && s[..|sig|] == sig
  }

  /** The loop of `checkZmsSig` and `checkZjsSig`, which differ only in the
      signature they compare with. */
  method CheckSignature(state: seq<bv8>, sig: seq<bv8>) returns (ok: bool)
    requires |sig| <= |state|
    ensures ok == HasSignature(state, sig)
  {
    for i := 0 to |sig|
      invariant state[..i] == sig[..i]
    {
      if state[i] != sig[i] {
        assert state[..|sig|][i] != sig[i];
        return false;
      }
      assert state[..i + 1] == state[..i] + [state[i]];
      assert sig[..i + 1] == sig[..i] + [sig[i]];
    }
    assert sig[..|sig|] == sig;
    return true;
  }

  // -------------------------------------------------------------------
  // Sending

  /** `sendMitsubishiHeavy88`: nothing when fewer bytes than an 88-bit
      state are given, else the bytes sent least significant bit first,
      `repeat + 1` times. */
  function SendMitsubishiHeavy88(gap: nat, data: seq<uint8>, nbytes: uint16, repeat: uint16): (ps: seq<Pulse>)
    requires nbytes <= |data|
    ensures nbytes < StateLength88 ==> ps == []
    ensures nbytes >= StateLength88 ==> ps == SendBytes(HeavyTiming(gap), data[..nbytes], false, repeat)
    ensures nbytes >= StateLength88 ==>
            |ps| == (repeat + 1) * (16 * nbytes + 3 + (if gap > 0 then 1 else 0))
  {
    if nbytes < StateLength88 then []
    else
      FrameLength(HeavyTiming(gap), BytesBits(data[..nbytes], false), 0);
      SendBytes(HeavyTiming(gap), data[..nbytes], false, repeat)
  }

  /** `sendMitsubishiHeavy152`: nothing when fewer bytes than a 152-bit
      state are given, else the same frame as the 88-bit message. */
  function SendMitsubishiHeavy152(gap: nat, data: seq<uint8>, nbytes: uint16, repeat: uint16): (ps: seq<Pulse>)
    requires nbytes <= |data|
    ensures nbytes < StateLength152 ==> ps == []
    ensures nbytes >= StateLength152 ==> ps == SendBytes(HeavyTiming(gap), data[..nbytes], false, repeat)
  {
    if nbytes < StateLength152 then [] else SendMitsubishiHeavy88(gap, data, nbytes, repeat)
  }

  // -------------------------------------------------------------------
  // Decoding

  datatype HeavyModel = Heavy88 | Heavy152

  /** What a successful decode reports: the protocol, the bit count and the
      state bytes. */
  datatype HeavyMessage = HeavyMessage(model: HeavyModel, bits: nat, state: seq<bv8>)

  /** Where the data loop stopped, how many bits it read and the bytes. */
  datatype DataRead = DataRead(offset: nat, bits: nat, bytes: seq<uint8>)

  /** The data loop of `decodeMitsubishiHeavy`: bytes of eight bits, least
      significant first, read while sixteen entries are left and fewer than
      `nbits` bits have been read; a byte that does not match fails. */
  function ReadBytes(m: Matcher, raw: seq<nat>, t: Timing, offset: nat, bits: nat, nbits: nat,
                     bytes: seq<uint8>): (r: Option<DataRead>)
    requires bits == 8 * |bytes|
    ensures r.Some? ==> r.value.bits == 8 * |r.value.bytes| && r.value.bits >= bits
    decreases nbits - bits
  {
    if !(offset + 16 <= |raw| && bits < nbits) then Some(DataRead(offset, bits, bytes))
    else
      match MatchData(m, raw, offset, 8, t, false)
      case None => None
      case Some(d) =>
        assert Pow2(8) == 256;
        ReadBytes(m, raw, t, offset + d.used, bits + 8, nbits, bytes + [d.data])
  }

  /** The compliance checks of `decodeMitsubishiHeavy` on what the data
      loop read: at least `nbits` bits, exactly `nbits` in strict mode, and
      only 88 or 152 bits, each with its signature and valid pairs in
      strict mode. */
  function Compliance(c: HeavyConsts, bits: nat, state: seq<bv8>, nbits: nat, strict: bool): (r: Option<HeavyMessage>)
    requires c.Valid() && bits == 8 * |state|
    ensures r.Some? ==> r.value.state == state && r.value.bits == bits >= nbits
    ensures r.Some? ==> (r.value.model == Heavy88 && r.value.bits == Bits88) ||
                        (r.value.model == Heavy152 && r.value.bits == Bits152)
    ensures r.Some? && strict ==> r.value.bits == nbits
    ensures r.Some? && strict && r.value.model == Heavy88 ==>
            HasSignature(state, c.zjsSig) && PairsValid(state, c.sigLength, StateLength88)
    ensures r.Some? && strict && r.value.model == Heavy152 ==>
            HasSignature(state, c.zmsSig) && PairsValid(state, c.sigLength, StateLength152)
  {
    if bits < nbits then None
    else if strict && bits != nbits then None
    else if bits == Bits88 then
      if strict && !(HasSignature(state, c.zjsSig) && PairsValid(state, c.sigLength, StateLength88)) then None
      else Some(HeavyMessage(Heavy88, bits, state))
    else if bits == Bits152 then
      if strict && !(HasSignature(state, c.zmsSig) && PairsValid(state, c.sigLength, StateLength152)) then None
      else Some(HeavyMessage(Heavy152, bits, state))
    else None
  }

  /** `decodeMitsubishiHeavy`: the length check, the bit counts strict mode
      allows, the header, the data loop, the footer mark and (when the
      capture goes on) the gap, then the compliance checks. */
  function HeavyDecoding(m: Matcher, c: HeavyConsts, raw: seq<nat>, nbits: nat, strict: bool): (r: Option<HeavyMessage>)
    requires c.Valid()
    ensures r.Some? ==> |raw| >= 2 * nbits + Header + Footer - 1
    ensures r.Some? ==> r.value.bits >= nbits && r.value.bits == 8 * |r.value.state|
    ensures r.Some? ==> (r.value.model == Heavy88 && r.value.bits == Bits88) ||
                        (r.value.model == Heavy152 && r.value.bits == Bits152)
    ensures r.Some? && strict ==> r.value.bits == nbits
    ensures r.Some? && strict && r.value.model == Heavy88 ==>
            HasSignature(r.value.state, c.zjsSig) && PairsValid(r.value.state, c.sigLength, StateLength88)
    ensures r.Some? && strict && r.value.model == Heavy152 ==>
            HasSignature(r.value.state, c.zmsSig) && PairsValid(r.value.state, c.sigLength, StateLength152)
  {
    var t := HeavyTiming(c.gap);
    if |raw| < 2 * nbits + Header + Footer - 1 then None
    else if strict && nbits != Bits88 && nbits != Bits152 then None
    else if !MarkAt(m, raw, StartOffset, t.hdrMark) || !SpaceAt(m, raw, StartOffset + 1, t.hdrSpace) then None
    else
      match ReadBytes(m, raw, t, StartOffset + 2, 0, nbits, [])
      case None => None
      case Some(d) => AfterData(m, c, raw, d, nbits, strict)
  }

  /** What `decodeMitsubishiHeavy` does after the data loop: the footer
      mark, the gap when the capture goes on, then the compliance checks. */
  function AfterData(m: Matcher, c: HeavyConsts, raw: seq<nat>, d: DataRead, nbits: nat, strict: bool)
    : (r: Option<HeavyMessage>)
    requires c.Valid() && d.bits == 8 * |d.bytes|
    ensures r.Some? ==> MarkAt(m, raw, d.offset, HeavyTiming(c.gap).footerMark)
    ensures r == None || r == Compliance(c, d.bits, FromBytes(d.bytes), nbits, strict)
  {
    if !MarkAt(m, raw, d.offset, HeavyTiming(c.gap).footerMark) then None
    else if d.offset + 1 < |raw| && !m.atLeast(raw[d.offset + 1], c.gap) then None
    else Compliance(c, d.bits, FromBytes(d.bytes), nbits, strict)
  }

  /** `decodeMitsubishiHeavy` as the loop the source runs. */
  method DecodeMitsubishiHeavy(m: Matcher, c: HeavyConsts, raw: seq<nat>, nbits: uint16, strict: bool)
    returns (r: Option<HeavyMessage>)
    requires c.Valid()
    ensures r == HeavyDecoding(m, c, raw, nbits, strict)
  {
    var t := HeavyTiming(c.gap);
    if |raw| < 2 * nbits + Header + Footer - 1 {
      return None;
    }
    if strict && nbits != Bits88 && nbits != Bits152 {
      return None;
    }
    var offset: nat := StartOffset;
    if !MarkAt(m, raw, offset, t.hdrMark) {
      return None;
    }
    offset := offset + 1;
    if !SpaceAt(m, raw, offset, t.hdrSpace) {
      return None;
    }
    offset := offset + 1;
    var d := DecodeData(m, raw, t, offset, nbits);
    if d.None? {
      return None;
    }
    r := DecodeAfterData(m, c, raw, d.value.offset, d.value.bits, d.value.bytes, nbits, strict);
  }

  /** The data loop of `decodeMitsubishiHeavy`. */
  method DecodeData(m: Matcher, raw: seq<nat>, t: Timing, start: nat, nbits: nat) returns (r: Option<DataRead>)
    ensures r == ReadBytes(m, raw, t, start, 0, nbits, [])
  {
    var actualBits := 0;
    var offset: nat := start;
    var bytes: seq<uint8> := [];
    while offset + 16 <= |raw| && actualBits < nbits
      invariant actualBits == 8 * |bytes|
      invariant ReadBytes(m, raw, t, start, 0, nbits, []) == ReadBytes(m, raw, t, offset, actualBits, nbits, bytes)
      decreases nbits - actualBits
    {
      var d := MatchData(m, raw, offset, 8, t, false);
      if d.None? {
        return None;
      }
      ReadBytesStep(m, raw, t, offset, actualBits, nbits, bytes, d.value);
      var b: uint8 := d.value.data;
      bytes := bytes + [b];
      actualBits, offset := actualBits + 8, offset + 16;
    }
    return Some(DataRead(offset, actualBits, bytes));
  }

  /** The rest of `decodeMitsubishiHeavy`, from the footer mark on. */
  method DecodeAfterData(m: Matcher, c: HeavyConsts, raw: seq<nat>, offset: nat, actualBits: nat,
                         bytes: seq<uint8>, nbits: nat, strict: bool) returns (r: Option<HeavyMessage>)
    requires c.Valid() && actualBits == 8 * |bytes|
    ensures r == AfterData(m, c, raw, DataRead(offset, actualBits, bytes), nbits, strict)
  {
    var t := HeavyTiming(c.gap);
    if !MarkAt(m, raw, offset, t.footerMark) {
      return None;
    }
    var next := offset + 1;
    if next < |raw| && !m.atLeast(raw[next], t.gap) {
      return None;
    }
    r := CheckCompliance(c, actualBits, FromBytes(bytes), nbits, strict);
  }

  /** The compliance checks at the end of `decodeMitsubishiHeavy`. */
  method CheckCompliance(c: HeavyConsts, bits: nat, state: seq<bv8>, nbits: nat, strict: bool)
    returns (r: Option<HeavyMessage>)
    requires c.Valid() && bits == 8 * |state|
    ensures r == Compliance(c, bits, state, nbits, strict)
  {
    if bits < nbits {
      return None;
    }
    if strict && bits != nbits {
      return None;
    }
    if bits == Bits88 {
      if strict {
        var sig := CheckSignature(state, c.zjsSig);
        var pairs := ValidChecksum(state, c.sigLength, StateLength88);
        if !(sig && pairs) {
          return None;
        }
      }
      return Some(HeavyMessage(Heavy88, bits, state));
    } else if bits == Bits152 {
      if strict {
        var sig := CheckSignature(state, c.zmsSig);
        var pairs := ValidChecksum(state, c.sigLength, StateLength152);
        if !(sig && pairs) {
          return None;
        }
      }
      return Some(HeavyMessage(Heavy152, bits, state));
    }
    return None;
  }

  // -------------------------------------------------------------------
  // Round trip

  /** One byte's data pulses are matched back into that byte. */
  lemma MatchByte(m: Matcher, raw: seq<nat>, offset: nat, t: Timing, b: uint8)
    requires Exact(m) && Separates(m, t)
    requires HoldsAt(raw, offset, DataPulses(t, WordBits(b, 8, false)))
    ensures MatchData(m, raw, offset, 8, t, false) == Some(DataMatch(b, 16))
  {
    MatchBitsOfData(m, raw, offset, t, WordBits(b, 8, false));
    WordRoundTrip(b, 8, false);
    assert Pow2(8) == 256;
    SmallMod(b, 256);
  }

  /** One turn of the data loop, when the next byte matches. */
  lemma ReadBytesStep(m: Matcher, raw: seq<nat>, t: Timing, offset: nat, bits: nat, nbits: nat,
                      bytes: seq<uint8>, d: DataMatch)
    requires bits == 8 * |bytes| && bits < nbits && offset + 16 <= |raw|
    requires MatchData(m, raw, offset, 8, t, false) == Some(d)
    ensures d.data < 256 && d.used == 16
    ensures ReadBytes(m, raw, t, offset, bits, nbits, bytes) ==
            ReadBytes(m, raw, t, offset + d.used, bits + 8, nbits, bytes + [d.data])
  {
    assert Pow2(8) == 256;
  }

  /** The pulses of a byte sequence are those of its first byte followed by
      those of the rest. */
  lemma HoldsFirstByte(raw: seq<nat>, offset: nat, t: Timing, bytes: seq<uint8>)
    requires bytes != [] && HoldsAt(raw, offset, DataPulses(t, BytesBits(bytes, false)))
    ensures HoldsAt(raw, offset, DataPulses(t, WordBits(bytes[0], 8, false)))
    ensures HoldsAt(raw, offset + 16, DataPulses(t, BytesBits(bytes[1..], false)))
  {
    var first := WordBits(bytes[0], 8, false);
    var rest := BytesBits(bytes[1..], false);
    DataPulsesAppend(t, first, rest);
    HoldsAtSplit(raw, offset, DataPulses(t, first), DataPulses(t, rest));
  }

  /** The capture matches `bytes`, one byte of sixteen entries after the
      other, from `offset` on. */
  ghost predicate MatchesBytes(m: Matcher, raw: seq<nat>, t: Timing, offset: nat, bytes: seq<uint8>)
    decreases |bytes|
  {
    bytes == [] ||
    (MatchData(m, raw, offset, 8, t, false) == Some(DataMatch(bytes[0], 16)) &&
     MatchesBytes(m, raw, t, offset + 16, bytes[1..]))
  }

  /** The data pulses of bytes are matched back, byte by byte. */
  lemma {:induction false} HoldsMatchesBytes(m: Matcher, raw: seq<nat>, t: Timing, offset: nat, bytes: seq<uint8>)
    requires Exact(m) && Separates(m, t)
    requires HoldsAt(raw, offset, DataPulses(t, BytesBits(bytes, false)))
    ensures MatchesBytes(m, raw, t, offset, bytes)
    decreases |bytes|
  {
    if bytes != [] {
      HoldsFirstByte(raw, offset, t, bytes);
      MatchByte(m, raw, offset, t, bytes[0]);
      HoldsMatchesBytes(m, raw, t, offset + 16, bytes[1..]);
    }
  }

  /** The data loop reads back the bytes the capture matches. */
  lemma {:induction false} ReadBytesOfData(m: Matcher, raw: seq<nat>, t: Timing, offset: nat,
                                           bytes: seq<uint8>, done: seq<uint8>, nbits: nat)
    requires MatchesBytes(m, raw, t, offset, bytes)
    requires nbits == 8 * (|done| + |bytes|)
    ensures ReadBytes(m, raw, t, offset, 8 * |done|, nbits, done) ==
            Some(DataRead(offset + 16 * |bytes|, nbits, done + bytes))
    decreases |bytes|
  {
    if bytes == [] {
      assert done + bytes == done;
    } else {
      ReadBytesStep(m, raw, t, offset, 8 * |done|, nbits, done, DataMatch(bytes[0], 16));
      ReadBytesOfData(m, raw, t, offset + 16, bytes[1..], done + [bytes[0]], nbits);
      MoveFirst(done, bytes);
    }
  }

  /** Moving the first of `bytes` to the end of `done` keeps their
      concatenation. */
  lemma MoveFirst(done: seq<uint8>, bytes: seq<uint8>)
    requires bytes != []
    ensures done + [bytes[0]] + bytes[1..] == done + bytes
  {
    assert [bytes[0]] + bytes[1..] == bytes;
  }

  /** One frame: the header, the data pulses, the footer mark and the gap. */
  lemma HeavyFrame(gap: nat, bytes: seq<uint8>)
    ensures var t := HeavyTiming(gap);
            SendBytes(t, bytes, false, 0) ==
            [Mark(3140), Space(1630)] + DataPulses(t, BytesBits(bytes, false)) + ([Mark(370)] + SpaceIf(gap))
  {
    var t := HeavyTiming(gap);
    var f := Frame(t, BytesBits(bytes, false), 0);
    assert SendBytes(t, bytes, false, 0) == f + [];
  }

  /** The capture of one frame of `state` holds the header at 1, the data
      pulses at 3 and the footer mark after the data. */
  lemma HeavyCapture(gap: nat, state: seq<bv8>, lead: nat)
    ensures var t := HeavyTiming(gap);
            var raw := Capture(lead, SendBytes(t, ToBytes(state), false, 0));
            var n := |state|;
            |raw| == 16 * n + 4 + (if gap > 0 then 1 else 0) &&
            raw[1] == 3140 && raw[2] == 1630 && raw[3 + 16 * n] == 370 &&
            (gap > 0 ==> raw[4 + 16 * n] == gap) &&
            HoldsAt(raw, 3, DataPulses(t, BytesBits(ToBytes(state), false)))
  {
    var t := HeavyTiming(gap);
    var data := DataPulses(t, BytesBits(ToBytes(state), false));
    var hdr, foot := [Mark(3140), Space(1630)], [Mark(370)] + SpaceIf(gap);
    var f := hdr + data + foot;
    HeavyFrame(gap, ToBytes(state));
    CaptureHolds(lead, f);
    var raw := Capture(lead, f);
    HoldsAtSplit(raw, 1, hdr + data, foot);
    HoldsAtSplit(raw, 1, hdr, data);
    assert raw[1] == hdr[0].us && raw[2] == hdr[1].us;
    assert raw[3 + |data|] == foot[0].us;
    if gap > 0 {
      assert raw[3 + |data| + 1] == foot[1].us;
    }
  }

  /** A capture that holds the header, matches `bytes` and then holds the
      footer mark and (when it goes on) a long enough gap decodes into
      `bytes`. */
  lemma DecodesMatchedFrame(m: Matcher, c: HeavyConsts, raw: seq<nat>, bytes: seq<uint8>, strict: bool)
    requires c.Valid()
    requires |bytes| == StateLength88 || |bytes| == StateLength152
    requires |raw| >= 16 * |bytes| + 4
    requires MarkAt(m, raw, 1, 3140) && SpaceAt(m, raw, 2, 1630)
    requires MatchesBytes(m, raw, HeavyTiming(c.gap), 3, bytes)
    requires MarkAt(m, raw, 3 + 16 * |bytes|, 370)
    requires 4 + 16 * |bytes| < |raw| ==> m.atLeast(raw[4 + 16 * |bytes|], c.gap)
    requires strict && |bytes| == StateLength88 ==>
             HasSignature(FromBytes(bytes), c.zjsSig) && PairsValid(FromBytes(bytes), c.sigLength, StateLength88)
    requires strict && |bytes| == StateLength152 ==>
             HasSignature(FromBytes(bytes), c.zmsSig) && PairsValid(FromBytes(bytes), c.sigLength, StateLength152)
    ensures HeavyDecoding(m, c, raw, 8 * |bytes|, strict) ==
            Some(HeavyMessage(if |bytes| == StateLength88 then Heavy88 else Heavy152, 8 * |bytes|, FromBytes(bytes)))
  {
    var d := DataRead(3 + 16 * |bytes|, 8 * |bytes|, bytes);
    ReadBytesOfData(m, raw, HeavyTiming(c.gap), 3, bytes, [], 8 * |bytes|);
    assert [] + bytes == bytes;
    DecodingAfterHeader(m, c, raw, 8 * |bytes|, strict, d);
    AfterDataOfFooter(m, c, raw, d, 8 * |bytes|, strict);
    ComplianceOfState(c, bytes, strict);
  }

  /** Past the length, size and header checks, the decode is what follows
      the data loop. */
  lemma DecodingAfterHeader(m: Matcher, c: HeavyConsts, raw: seq<nat>, nbits: nat, strict: bool, d: DataRead)
    requires c.Valid() && d.bits == 8 * |d.bytes|
    requires |raw| >= 2 * nbits + Header + Footer - 1 && (!strict || nbits == Bits88 || nbits == Bits152)
    requires MarkAt(m, raw, 1, 3140) && SpaceAt(m, raw, 2, 1630)
    requires ReadBytes(m, raw, HeavyTiming(c.gap), 3, 0, nbits, []) == Some(d)
    ensures HeavyDecoding(m, c, raw, nbits, strict) == AfterData(m, c, raw, d, nbits, strict)
  {
  }

  /** A matched footer mark and gap leave the compliance checks. */
  lemma AfterDataOfFooter(m: Matcher, c: HeavyConsts, raw: seq<nat>, d: DataRead, nbits: nat, strict: bool)
    requires c.Valid() && d.bits == 8 * |d.bytes|
    requires MarkAt(m, raw, d.offset, 370)
    requires d.offset + 1 < |raw| ==> m.atLeast(raw[d.offset + 1], c.gap)
    ensures AfterData(m, c, raw, d, nbits, strict) == Compliance(c, d.bits, FromBytes(d.bytes), nbits, strict)
  {
  }

  /** A state of either size with, in strict mode, its signature and valid
      pairs passes the compliance checks at its own size. */
  lemma ComplianceOfState(c: HeavyConsts, bytes: seq<uint8>, strict: bool)
    requires c.Valid()
    requires |bytes| == StateLength88 || |bytes| == StateLength152
    requires strict && |bytes| == StateLength88 ==>
             HasSignature(FromBytes(bytes), c.zjsSig) && PairsValid(FromBytes(bytes), c.sigLength, StateLength88)
    requires strict && |bytes| == StateLength152 ==>
             HasSignature(FromBytes(bytes), c.zmsSig) && PairsValid(FromBytes(bytes), c.sigLength, StateLength152)
    ensures Compliance(c, 8 * |bytes|, FromBytes(bytes), 8 * |bytes|, strict) ==
            Some(HeavyMessage(if |bytes| == StateLength88 then Heavy88 else Heavy152, 8 * |bytes|, FromBytes(bytes)))
  {
  }

  /** A state of either length sent once is decoded back into itself;
      strict mode also needs the signature and the pairs to be right. */
  lemma DecodesSentState(m: Matcher, c: HeavyConsts, state: seq<bv8>, lead: nat, strict: bool)
    requires c.Valid() && Exact(m) && Separates(m, HeavyTiming(c.gap))
    requires |state| == StateLength88 || |state| == StateLength152
    requires strict && |state| == StateLength88 ==>
             HasSignature(state, c.zjsSig) && PairsValid(state, c.sigLength, StateLength88)
    requires strict && |state| == StateLength152 ==>
             HasSignature(state, c.zmsSig) && PairsValid(state, c.sigLength, StateLength152)
    ensures var raw := Capture(lead, SendBytes(HeavyTiming(c.gap), ToBytes(state), false, 0));
            HeavyDecoding(m, c, raw, 8 * |state|, strict) ==
            Some(HeavyMessage(if |state| == StateLength88 then Heavy88 else Heavy152, 8 * |state|, state))
  {
    var t := HeavyTiming(c.gap);
    var raw := Capture(lead, SendBytes(t, ToBytes(state), false, 0));
    HeavyCapture(c.gap, state, lead);
    HoldsMatchesBytes(m, raw, t, 3, ToBytes(state));
    BytesConversion(state);
    assert m.mark(3140, 3140) && m.space(1630, 1630) && m.mark(370, 370) && m.atLeast(c.gap, c.gap);
    DecodesMatchedFrame(m, c, raw, ToBytes(state), strict);
  }
}

/** Pulse trains and their matching: the frame every protocol module hands to
    the generic sender (header mark and space, the data bits, footer mark, a
    trailing gap), and the matching of a captured train of durations against
    such a frame. The generic sender and matcher of the library are not part
    of this model; these are their specifications as the protocol modules use
    them. */
module IrSignal {
  import opened Bits
  import opened Wrappers

  /** A carrier burst or a pause, with its length in microseconds. */
  datatype Pulse = Mark(us: nat) | Space(us: nat)

  /** The timing arguments of a generic send or match: header mark and
      space, the mark and space of a one bit and of a zero bit, the footer
      mark and the gap that follows it. */
  datatype Timing = Timing(hdrMark: nat, hdrSpace: nat,
                           oneMark: nat, oneSpace: nat,
                           zeroMark: nat, zeroSpace: nat,
                           footerMark: nat, gap: nat)

  /** A mark or a space of zero length is not sent. */
  function MarkIf(d: nat): (ps: seq<Pulse>)
    ensures |ps| == (if d > 0 then 1 else 0)
  {
    if d > 0 then [Mark(d)] else []
  }

  function SpaceIf(d: nat): (ps: seq<Pulse>)
    ensures |ps| == (if d > 0 then 1 else 0)
  {
    if d > 0 then [Space(d)] else []
  }

  /** Total length of a pulse train in microseconds. */
  function Elapsed(ps: seq<Pulse>): nat {
    if ps == [] then 0 else ps[0].us + Elapsed(ps[1..])
  }

  /** The length of two trains one after the other is the sum of theirs. */
  lemma {:induction false} ElapsedAppend(a: seq<Pulse>, b: seq<Pulse>)
    ensures Elapsed(a + b) == Elapsed(a) + Elapsed(b)
    decreases |a|
  {
    if a == [] {
      assert a + b == b;
    } else {
      assert (a + b)[0] == a[0] && (a + b)[1..] == a[1..] + b;
      ElapsedAppend(a[1..], b);
    }
  }

  /** A single pulse lasts its own length. */
  lemma ElapsedOne(p: Pulse)
    ensures Elapsed([p]) == p.us
  {
    assert [p][1..] == [];
  }

  function BitPulses(t: Timing, b: bool): seq<Pulse> {
    if b then [Mark(t.oneMark), Space(t.oneSpace)] else [Mark(t.zeroMark), Space(t.zeroSpace)]
  }

  /** The data bits, a mark and a space for each bit, in the order given. */
  function DataPulses(t: Timing, bits: seq<bool>): (ps: seq<Pulse>)
    ensures |ps| == 2 * |bits|
  {
    if bits == [] then [] else BitPulses(t, bits[0]) + DataPulses(t, bits[1..])
  }

  /** The data pulses of two bit sequences one after the other. */
  lemma {:induction false} DataPulsesAppend(t: Timing, a: seq<bool>, b: seq<bool>)
    ensures DataPulses(t, a + b) == DataPulses(t, a) + DataPulses(t, b)
    decreases a
  {
    if a == [] {
      assert a + b == b;
    } else {
      assert (a + b)[0] == a[0] && (a + b)[1..] == a[1..] + b;
      DataPulsesAppend(t, a[1..], b);
    }
  }

  /** Header, data and footer of one frame. */
  function FrameBody(t: Timing, bits: seq<bool>): seq<Pulse> {
    MarkIf(t.hdrMark) + SpaceIf(t.hdrSpace) + DataPulses(t, bits) + MarkIf(t.footerMark)
  }

  /** The space after the footer: the gap, stretched so that the frame lasts
      at least `mesgtime` microseconds. */
  function TrailingSpace(t: Timing, elapsed: nat, mesgtime: nat): (d: nat)
    ensures d >= t.gap
    ensures elapsed < mesgtime ==> elapsed + d >= mesgtime
  {
    if elapsed >= mesgtime then t.gap
    else if t.gap >= mesgtime - elapsed then t.gap
    else mesgtime - elapsed
  }

  /** One frame of a generic send. */
  function Frame(t: Timing, bits: seq<bool>, mesgtime: nat): seq<Pulse> {
    var body := FrameBody(t, bits);
    body + SpaceIf(TrailingSpace(t, Elapsed(body), mesgtime))
  }

  /** `n` copies of a pulse train, one after the other. */
  function Repeated(ps: seq<Pulse>, n: nat): (r: seq<Pulse>)
    ensures |r| == n * |ps|
  {
    if n == 0 then [] else ps + Repeated(ps, n - 1)
  }

  /** A generic send: the frame once, then `repeat` more times. */
  function SendGeneric(t: Timing, bits: seq<bool>, mesgtime: nat, repeat: nat): seq<Pulse> {
    Repeated(Frame(t, bits, mesgtime), repeat + 1)
  }

  /** A generic send of a byte array. */
  function SendBytes(t: Timing, bytes: seq<uint8>, msbFirst: bool, repeat: nat): seq<Pulse> {
    SendGeneric(t, BytesBits(bytes, msbFirst), 0, repeat)
  }

  /** A generic send of the low `nbits` bits of a word. */
  function SendWord(t: Timing, data: nat, nbits: nat, msbFirst: bool, mesgtime: nat, repeat: nat): seq<Pulse> {
    SendGeneric(t, WordBits(data, nbits, msbFirst), mesgtime, repeat)
  }

  lemma FrameLength(t: Timing, bits: seq<bool>, mesgtime: nat)
    ensures |FrameBody(t, bits)| ==
      (if t.hdrMark > 0 then 1 else 0) + (if t.hdrSpace > 0 then 1 else 0) + 2 * |bits| +
      (if t.footerMark > 0 then 1 else 0)
    ensures mesgtime == 0 ==>
      |Frame(t, bits, mesgtime)| == |FrameBody(t, bits)| + (if t.gap > 0 then 1 else 0)
  {
  }

  lemma {:induction false} RepeatedAppend(ps: seq<Pulse>, n: nat)
    requires n > 0
    ensures Repeated(ps, n) == Repeated(ps, n - 1) + ps
  {
    if n > 1 {
      RepeatedAppend(ps, n - 1);
    }
  }

  // ---------------------------------------------------------------------
  // Captures

  /** The durations of a pulse train, as a receiver records them. */
  function Durations(ps: seq<Pulse>): (ds: seq<nat>)
    ensures |ds| == |ps|
  {
    if ps == [] then [] else [ps[0].us] + Durations(ps[1..])
  }

  /** Each recorded duration is that of its pulse. */
  lemma {:induction false} DurationsAt(ps: seq<Pulse>, i: nat)
    requires i < |ps|
    ensures Durations(ps)[i] == ps[i].us
    decreases i
  {
    if i > 0 {
      DurationsAt(ps[1..], i - 1);
    }
  }

  /** A capture of a pulse train: the receiver's buffer starts with the gap
      that preceded the first mark, so the train begins at index 1. */
  function Capture(lead: nat, ps: seq<Pulse>): (raw: seq<nat>)
    ensures |raw| == |ps| + 1
  {
    [lead] + Durations(ps)
  }

  /** `raw` holds the durations of `ps` starting at `offset`. */
  predicate HoldsAt(raw: seq<nat>, offset: nat, ps: seq<Pulse>) {
    offset + |ps| <= |raw| && forall i :: 0 <= i < |ps| ==> raw[offset + i] == ps[i].us
  }

  lemma HoldsAtSplit(raw: seq<nat>, offset: nat, a: seq<Pulse>, b: seq<Pulse>)
    requires HoldsAt(raw, offset, a + b)
    ensures HoldsAt(raw, offset, a) && HoldsAt(raw, offset + |a|, b)
  {
    forall i | 0 <= i < |a|
      ensures raw[offset + i] == a[i].us
    {
      assert (a + b)[i] == a[i];
    }
    forall i | 0 <= i < |b|
      ensures raw[offset + |a| + i] == b[i].us
    {
      assert (a + b)[|a| + i] == b[i];
    }
  }

  lemma CaptureHolds(lead: nat, ps: seq<Pulse>)
    ensures HoldsAt(Capture(lead, ps), 1, ps)
  {
    var raw := Capture(lead, ps);
    forall i | 0 <= i < |ps|
      ensures raw[1 + i] == ps[i].us
    {
      DurationsAt(ps, i);
    }
  }

  // ---------------------------------------------------------------------
  // Matching

  /** The tolerance checks of a receiver: whether a measured mark or space
      matches an expected length, and whether a measured space is at least
      an expected length. */
  datatype Matcher = Matcher(mark: (nat, nat) -> bool, space: (nat, nat) -> bool,
                             atLeast: (nat, nat) -> bool)

  /** Every tolerance check accepts a measurement equal to the expected length. */
  ghost predicate Exact(m: Matcher) {
    forall d: nat :: m.mark(d, d) && m.space(d, d) && m.atLeast(d, d)
  }

  /** The durations of a zero bit are not taken for a one bit. */
  predicate Separates(m: Matcher, t: Timing) {
    !(m.mark(t.zeroMark, t.oneMark) && m.space(t.zeroSpace, t.oneSpace))
  }

  /** A read past the end of the capture does not match. */
  predicate MarkAt(m: Matcher, raw: seq<nat>, i: nat, d: nat) {
    i < |raw| && m.mark(raw[i], d)
  }

  predicate SpaceAt(m: Matcher, raw: seq<nat>, i: nat, d: nat) {
    i < |raw| && m.space(raw[i], d)
  }

  predicate AtLeastAt(m: Matcher, raw: seq<nat>, i: nat, d: nat) {
    i < |raw| && m.atLeast(raw[i], d)
  }

  /** Reads `n` data bits from `offset`, two entries per bit; a pair that
      matches a one bit is a one, else a pair that matches a zero bit is a
      zero, else the match fails. */
  function MatchBits(m: Matcher, raw: seq<nat>, offset: nat, t: Timing, n: nat): (r: Option<seq<bool>>)
    ensures r.Some? ==> |r.value| == n
    ensures r.Some? && n > 0 ==> offset + 2 * n <= |raw|
    decreases n
  {
    if n == 0 then Some([])
    else if offset + 1 >= |raw| then None
    else
      var bit :=
        if m.mark(raw[offset], t.oneMark) && m.space(raw[offset + 1], t.oneSpace) then Some(true)
        else if m.mark(raw[offset], t.zeroMark) && m.space(raw[offset + 1], t.zeroSpace) then Some(false)
        else None;
      match bit
      case None => None
      case Some(b) =>
        match MatchBits(m, raw, offset + 2, t, n - 1)
        case None => None
        case Some(rest) => Some([b] + rest)
  }

  /** The result of a data match: the value and the number of entries read. */
  datatype DataMatch = DataMatch(data: nat, used: nat)

  /** A data match of `n` bits into a word, in either bit order. */
  function MatchData(m: Matcher, raw: seq<nat>, offset: nat, n: nat, t: Timing, msbFirst: bool): (r: Option<DataMatch>)
    ensures r.Some? ==> r.value.used == 2 * n && r.value.data < Pow2(n)
    ensures r.Some? && n > 0 ==> offset + 2 * n <= |raw|
  {
    match MatchBits(m, raw, offset, t, n)
    case None => None
    case Some(bits) => Some(DataMatch(FromBits(bits, msbFirst), 2 * n))
  }

  /** The result of a frame match into bytes: the bytes and the number of
      entries read. */
  datatype BytesMatch = BytesMatch(bytes: seq<uint8>, used: nat)

  /** Position after the header, when the header matches. */
  function MatchHeader(m: Matcher, raw: seq<nat>, offset: nat, t: Timing): (r: Option<nat>)
    ensures r.Some? ==> r.value == offset + (if t.hdrMark > 0 then 1 else 0) + (if t.hdrSpace > 0 then 1 else 0)
  {
    if t.hdrMark > 0 && !MarkAt(m, raw, offset, t.hdrMark) then None
    else
      var p := if t.hdrMark > 0 then offset + 1 else offset;
      if t.hdrSpace > 0 && !SpaceAt(m, raw, p, t.hdrSpace) then None
      else Some(if t.hdrSpace > 0 then p + 1 else p)
  }

  /** Position after the footer: the footer mark, then the trailing gap when
      the capture goes on after the footer mark (checked as "at least the
      gap" or as a plain space). */
  function MatchFooterAt(m: Matcher, raw: seq<nat>, q: nat, t: Timing, atLeast: bool): (r: Option<nat>)
    ensures r.Some? ==> q <= r.value <= q + 2
    ensures r.Some? && q <= |raw| ==> r.value <= |raw|
  {
    if t.footerMark > 0 && !MarkAt(m, raw, q, t.footerMark) then None
    else
      var e := if t.footerMark > 0 then q + 1 else q;
      if t.gap > 0 && e < |raw| then
        if (if atLeast then m.atLeast(raw[e], t.gap) else m.space(raw[e], t.gap)) then Some(e + 1)
        else None
      else Some(e)
  }

  /** A generic frame match of `nbits` bits into bytes: header, data, then
      footer. */
  function MatchGenericBytes(m: Matcher, raw: seq<nat>, offset: nat, nbits: nat, t: Timing,
                             atLeast: bool, msbFirst: bool): (r: Option<BytesMatch>)
    requires nbits % 8 == 0
    ensures r.Some? ==> |r.value.bytes| * 8 == nbits
    ensures r.Some? && nbits > 0 ==> offset + r.value.used <= |raw|
    ensures r.Some? ==> r.value.used >= 2 * nbits
  {
    match MatchHeader(m, raw, offset, t)
    case None => None
    case Some(p) => MatchBytesFrom(m, raw, offset, p, nbits, t, atLeast, msbFirst)
  }

  /** The data and the footer of a generic frame whose header ended at `p`. */
  function MatchBytesFrom(m: Matcher, raw: seq<nat>, offset: nat, p: nat, nbits: nat, t: Timing,
                          atLeast: bool, msbFirst: bool): (r: Option<BytesMatch>)
    requires nbits % 8 == 0 && offset <= p
    ensures r.Some? ==> |r.value.bytes| * 8 == nbits
    ensures r.Some? && nbits > 0 ==> offset + r.value.used <= |raw|
    ensures r.Some? ==> r.value.used >= 2 * nbits
  {
    match MatchBits(m, raw, p, t, nbits)
    case None => None
    case Some(bits) => MatchFooterBytes(m, raw, offset, p + 2 * nbits, bits, t, atLeast, msbFirst)
  }

  /** The footer of a generic frame whose data, `bits`, ended at `q`. */
  function MatchFooterBytes(m: Matcher, raw: seq<nat>, offset: nat, q: nat, bits: seq<bool>, t: Timing,
                            atLeast: bool, msbFirst: bool): (r: Option<BytesMatch>)
    requires |bits| % 8 == 0 && offset + 2 * |bits| <= q
    requires |bits| > 0 ==> q <= |raw|
    ensures r.Some? ==> |r.value.bytes| * 8 == |bits|
    ensures r.Some? && |bits| > 0 ==> offset + r.value.used <= |raw|
    ensures r.Some? ==> r.value.used >= 2 * |bits|
  {
    match MatchFooterAt(m, raw, q, t, atLeast)
    case None => None
    case Some(e) => Some(BytesMatch(BitsBytes(bits, msbFirst), e - offset))
  }

  // ---------------------------------------------------------------------
  // Matching what was sent

  /** The data pulses of a bit sequence are read back as that sequence. */
  lemma {:induction false} MatchBitsOfData(m: Matcher, raw: seq<nat>, offset: nat, t: Timing, bits: seq<bool>)
    requires Exact(m) && Separates(m, t)
    requires HoldsAt(raw, offset, DataPulses(t, bits))
    ensures MatchBits(m, raw, offset, t, |bits|) == Some(bits)
    decreases bits
  {
    if bits != [] {
      var rest := DataPulses(t, bits[1..]);
      HoldsAtSplit(raw, offset, BitPulses(t, bits[0]), rest);
      assert raw[offset] == BitPulses(t, bits[0])[0].us;
      assert raw[offset + 1] == BitPulses(t, bits[0])[1].us;
      MatchBitsOfData(m, raw, offset + 2, t, bits[1..]);
      assert [bits[0]] + bits[1..] == bits;
    }
  }

  lemma MatchHeaderOfFrame(m: Matcher, raw: seq<nat>, offset: nat, t: Timing, rest: seq<Pulse>)
    requires Exact(m)
    requires HoldsAt(raw, offset, MarkIf(t.hdrMark) + SpaceIf(t.hdrSpace) + rest)
    ensures MatchHeader(m, raw, offset, t) == Some(offset + |MarkIf(t.hdrMark) + SpaceIf(t.hdrSpace)|)
  {
    var ps := MarkIf(t.hdrMark) + SpaceIf(t.hdrSpace) + rest;
    if t.hdrMark > 0 {
      assert raw[offset] == ps[0].us;
    }
    var p := if t.hdrMark > 0 then offset + 1 else offset;
    if t.hdrSpace > 0 {
      assert raw[p] == ps[p - offset].us;
    }
  }

  /** A frame of bytes sent with no minimum message time is matched back
      into those bytes, reading the whole frame. */
  lemma MatchGenericBytesOfFrame(m: Matcher, raw: seq<nat>, offset: nat, t: Timing,
                                 bytes: seq<uint8>, atLeast: bool, msbFirst: bool)
    requires Exact(m) && Separates(m, t)
    requires HoldsAt(raw, offset, Frame(t, BytesBits(bytes, msbFirst), 0))
    ensures MatchGenericBytes(m, raw, offset, 8 * |bytes|, t, atLeast, msbFirst) ==
            Some(BytesMatch(bytes, |Frame(t, BytesBits(bytes, msbFirst), 0)|))
  {
    MatchGenericOfFrame(m, raw, offset, t, BytesBits(bytes, msbFirst), atLeast, msbFirst);
    BytesRoundTrip(bytes, msbFirst);
  }

  lemma MatchGenericOfFrame(m: Matcher, raw: seq<nat>, offset: nat, t: Timing,
                            bits: seq<bool>, atLeast: bool, msbFirst: bool)
    requires Exact(m) && Separates(m, t)
    requires |bits| % 8 == 0
    requires HoldsAt(raw, offset, Frame(t, bits, 0))
    ensures MatchGenericBytes(m, raw, offset, |bits|, t, atLeast, msbFirst) ==
            Some(BytesMatch(BitsBytes(bits, msbFirst), |Frame(t, bits, 0)|))
  {
    FrameParts(t, bits);
    MatchGenericOfParts(m, raw, offset, t, bits, atLeast, msbFirst);
  }

  /** The same, for the frame written as its header, data and footer. */
  lemma MatchGenericOfParts(m: Matcher, raw: seq<nat>, offset: nat, t: Timing,
                            bits: seq<bool>, atLeast: bool, msbFirst: bool)
    requires Exact(m) && Separates(m, t)
    requires |bits| % 8 == 0
    requires HoldsAt(raw, offset, (MarkIf(t.hdrMark) + SpaceIf(t.hdrSpace)) +
                                  (DataPulses(t, bits) + (MarkIf(t.footerMark) + SpaceIf(t.gap))))
    ensures MatchGenericBytes(m, raw, offset, |bits|, t, atLeast, msbFirst) ==
            Some(BytesMatch(BitsBytes(bits, msbFirst),
                            |(MarkIf(t.hdrMark) + SpaceIf(t.hdrSpace)) +
                             (DataPulses(t, bits) + (MarkIf(t.footerMark) + SpaceIf(t.gap)))|))
  {
    var hdr := MarkIf(t.hdrMark) + SpaceIf(t.hdrSpace);
    var rest := DataPulses(t, bits) + (MarkIf(t.footerMark) + SpaceIf(t.gap));
    var p := offset + |hdr|;
    MatchHeaderOfFrame(m, raw, offset, t, rest);
    HoldsAtSplit(raw, offset, hdr, rest);
    MatchGenericAfterHeader(m, raw, offset, p, |bits|, t, atLeast, msbFirst);
    MatchBytesOfFrame(m, raw, offset, p, t, bits, atLeast, msbFirst);
    assert p + |rest| - offset == |hdr + rest|;
  }

  /** Once the header has matched up to `p`, the generic match is the match
      of the data and the footer from `p`. */
  lemma MatchGenericAfterHeader(m: Matcher, raw: seq<nat>, offset: nat, p: nat, nbits: nat, t: Timing,
                                atLeast: bool, msbFirst: bool)
    requires nbits % 8 == 0 && MatchHeader(m, raw, offset, t) == Some(p)
    ensures offset <= p
    ensures MatchGenericBytes(m, raw, offset, nbits, t, atLeast, msbFirst) ==
            MatchBytesFrom(m, raw, offset, p, nbits, t, atLeast, msbFirst)
  {
  }

  /** A frame with no minimum message time is its header, its data, its
      footer mark and its gap. */
  lemma FrameParts(t: Timing, bits: seq<bool>)
    ensures Frame(t, bits, 0) ==
            (MarkIf(t.hdrMark) + SpaceIf(t.hdrSpace)) +
            (DataPulses(t, bits) + (MarkIf(t.footerMark) + SpaceIf(t.gap)))
  {
    var hdr := MarkIf(t.hdrMark) + SpaceIf(t.hdrSpace);
    var data := DataPulses(t, bits);
    var foot := MarkIf(t.footerMark) + SpaceIf(t.gap);
    assert TrailingSpace(t, Elapsed(FrameBody(t, bits)), 0) == t.gap;
    assert FrameBody(t, bits) + SpaceIf(t.gap) == hdr + (data + foot);
  }

  /** The data pulses and the footer of a frame, from `p` on, are matched
      back into the bytes of the data. */
  lemma MatchBytesOfFrame(m: Matcher, raw: seq<nat>, offset: nat, p: nat, t: Timing,
                          bits: seq<bool>, atLeast: bool, msbFirst: bool)
    requires Exact(m) && Separates(m, t)
    requires |bits| % 8 == 0 && offset <= p
    requires HoldsAt(raw, p, DataPulses(t, bits) + (MarkIf(t.footerMark) + SpaceIf(t.gap)))
    ensures MatchBytesFrom(m, raw, offset, p, |bits|, t, atLeast, msbFirst) ==
            Some(BytesMatch(BitsBytes(bits, msbFirst),
                            p + |DataPulses(t, bits) + (MarkIf(t.footerMark) + SpaceIf(t.gap))| - offset))
  {
    var foot := MarkIf(t.footerMark) + SpaceIf(t.gap);
    var data := DataPulses(t, bits);
    HoldsAtSplit(raw, p, data, foot);
    MatchBitsOfData(m, raw, p, t, bits);
    assert MatchBytesFrom(m, raw, offset, p, |bits|, t, atLeast, msbFirst) ==
           MatchFooterBytes(m, raw, offset, p + |data|, bits, t, atLeast, msbFirst);
    MatchFooterBytesOfFrame(m, raw, offset, p + |data|, t, bits, atLeast, msbFirst);
    assert p + |data| + |foot| == p + |data + foot|;
  }

  /** The footer of a frame, at `q`, is matched and ends the frame. */
  lemma MatchFooterBytesOfFrame(m: Matcher, raw: seq<nat>, offset: nat, q: nat, t: Timing,
                                bits: seq<bool>, atLeast: bool, msbFirst: bool)
    requires Exact(m)
    requires |bits| % 8 == 0 && offset + 2 * |bits| <= q
    requires HoldsAt(raw, q, MarkIf(t.footerMark) + SpaceIf(t.gap))
    ensures MatchFooterBytes(m, raw, offset, q, bits, t, atLeast, msbFirst) ==
            Some(BytesMatch(BitsBytes(bits, msbFirst), q + |MarkIf(t.footerMark) + SpaceIf(t.gap)| - offset))
  {
    MatchFooter(m, raw, q, t, atLeast);
  }

  /** The footer mark and trailing gap of a frame sent without a minimum
      message time match. */
  lemma MatchFooter(m: Matcher, raw: seq<nat>, q: nat, t: Timing, atLeast: bool)
    requires Exact(m)
    requires HoldsAt(raw, q, MarkIf(t.footerMark) + SpaceIf(t.gap))
    ensures MatchFooterAt(m, raw, q, t, atLeast) == Some(q + |MarkIf(t.footerMark) + SpaceIf(t.gap)|)
  {
    var foot := MarkIf(t.footerMark) + SpaceIf(t.gap);
    if t.footerMark > 0 {
      assert raw[q] == foot[0].us;
    }
    var e := if t.footerMark > 0 then q + 1 else q;
    if t.gap > 0 {
      assert raw[e] == foot[e - q].us;
    }
  }
}

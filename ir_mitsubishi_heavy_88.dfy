/** The `IRMitsubishiHeavy88Ac` class: the 11-byte ZJ-S state held in
    place, its reset, raw access, the complement pairs recomputed by
    `getRaw`, and the setters with their fallbacks
    (src/ir_MitsubishiHeavy.cpp:440-641).

    Byte 5 holds part of the vertical swing, the horizontal swing and the
    clean bit; byte 7 the fan in its top three bits and the other part of
    the vertical swing; byte 9 the power bit, the mode and, in its top four
    bits, the temperature. The masks and codes are the parameters of a
    `Heavy88Layout`. */
module MitsubishiHeavy88Ac {
  import opened Bits
  import opened IrSignal
  import opened MitsubishiHeavy
  import opened MitsubishiHeavyLayout

  datatype Heavy88Layout = Heavy88Layout(
    common: HeavyCommon,
    fanMask: bv8,
    fanAuto: bv8, fanLow: bv8, fanMed: bv8, fanHigh: bv8, fanTurbo: bv8, fanEcono: bv8,
    swingVMask5: bv8, swingVMask7: bv8,
    swingVAuto: bv8, swingVHighest: bv8, swingVHigh: bv8, swingVMiddle: bv8, swingVLow: bv8,
    swingVLowest: bv8, swingVOff: bv8,
    swingHMask: bv8,
    swingHAuto: bv8, swingHLeftMax: bv8, swingHLeft: bv8, swingHMiddle: bv8, swingHRight: bv8,
    swingHRightMax: bv8, swingHLeftRight: bv8, swingHRightLeft: bv8, swingH3D: bv8, swingHOff: bv8,
    cleanBit: bv8)
  {
    /** The fields that share a byte do not overlap, the power bit and the
        mode lie in the low bits `setTemp` keeps, the temperature offsets
        fit in four bits, the fan field is the top three bits of byte 7,
        and every code fits its field. */
    predicate Valid() {
      common.Valid() &&
      // Byte 9: power, mode and temperature.
      Apart(common.tempMask, 0xF0) && Fits(common.powerBit, common.tempMask) &&
      Fits(common.modeMask, common.tempMask) && NibbleRange(common.minTemp, common.maxTemp) &&
      // Byte 7: fan and the second part of the vertical swing.
      CoversTop3(fanMask) && Apart(swingVMask7, fanMask) &&
      // Byte 5: the first part of the vertical swing, horizontal swing and clean.
      Apart(swingHMask, swingVMask5) && cleanBit != 0 &&
      Apart(cleanBit, swingVMask5) && Apart(cleanBit, swingHMask) &&
      CodesFit()
    }

    /** The fan codes fit in three bits, the vertical swing codes in the two
        parts of their field, the horizontal ones in theirs. */
    predicate CodesFit() {
      fanAuto < 8 && fanLow < 8 && fanMed < 8 && fanHigh < 8 && fanTurbo < 8 && fanEcono < 8 &&
      Fits(swingVAuto, Join(swingVMask5, swingVMask7)) && Fits(swingVHighest, Join(swingVMask5, swingVMask7)) &&
      Fits(swingVHigh, Join(swingVMask5, swingVMask7)) && Fits(swingVMiddle, Join(swingVMask5, swingVMask7)) &&
      Fits(swingVLow, Join(swingVMask5, swingVMask7)) && Fits(swingVLowest, Join(swingVMask5, swingVMask7)) &&
      Fits(swingVOff, Join(swingVMask5, swingVMask7)) &&
      Fits(swingHAuto, swingHMask) && Fits(swingHLeftMax, swingHMask) && Fits(swingHLeft, swingHMask) &&
      Fits(swingHMiddle, swingHMask) && Fits(swingHRight, swingHMask) && Fits(swingHRightMax, swingHMask) &&
      Fits(swingHLeftRight, swingHMask) && Fits(swingHRightLeft, swingHMask) && Fits(swingH3D, swingHMask) &&
      Fits(swingHOff, swingHMask)
    }

    /** The five fan speeds `setFan` keeps; any other becomes Auto. */
    predicate KnownFan(speed: bv8) {
      speed == fanLow || speed == fanMed || speed == fanHigh || speed == fanTurbo || speed == fanEcono
    }

    /** The fan speed `setFan` stores. */
    function FanCode(speed: bv8): (r: bv8)
      ensures r == speed || r == fanAuto
      ensures KnownFan(speed) ==> r == speed
      ensures CodesFit() ==> r < 8
    {
      if KnownFan(speed) then speed else fanAuto
    }

    /** The six vertical positions `setSwingVertical` keeps; any other
        becomes Off. */
    predicate KnownSwingV(pos: bv8) {
      pos == swingVAuto || pos == swingVHighest || pos == swingVHigh || pos == swingVMiddle ||
      pos == swingVLow || pos == swingVLowest
    }

    /** The vertical position `setSwingVertical` stores. */
    function SwingVCode(pos: bv8): (r: bv8)
      ensures r == pos || r == swingVOff
      ensures KnownSwingV(pos) ==> r == pos
      ensures CodesFit() ==> Fits(r, Join(swingVMask5, swingVMask7))
    {
      if KnownSwingV(pos) then pos else swingVOff
    }

    /** The nine horizontal positions `setSwingHorizontal` keeps; any other
        becomes Off. */
    predicate KnownSwingH(pos: bv8) {
      pos == swingHAuto || pos == swingHLeftMax || pos == swingHLeft || pos == swingHMiddle ||
      pos == swingHRight || pos == swingHRightMax || pos == swingHLeftRight || pos == swingHRightLeft ||
      pos == swingH3D
    }

    /** The horizontal position `setSwingHorizontal` stores. */
    function SwingHCode(pos: bv8): (r: bv8)
      ensures r == pos || r == swingHOff
      ensures KnownSwingH(pos) ==> r == pos
      ensures CodesFit() ==> Fits(r, swingHMask)
    {
      if KnownSwingH(pos) then pos else swingHOff
    }
  }

  // -------------------------------------------------------------------
  // The getters, read off an 11-byte state

  predicate GetPower(k: Heavy88Layout, s: seq<bv8>)
    requires |s| == StateLength88
  {
    IsSet(s[9], k.common.powerBit)
  }

  function GetMode(k: Heavy88Layout, s: seq<bv8>): bv8
    requires |s| == StateLength88
  {
    Pick(s[9], k.common.modeMask)
  }

  /** `getTemp`: the top four bits plus the minimum. */
  function GetTemp(k: Heavy88Layout, s: seq<bv8>): bv8
    requires |s| == StateLength88
  {
    Plus(Top4(s[9]), k.common.minTemp)
  }

  /** `getFan`: the top three bits of byte 7. */
  function GetFan(k: Heavy88Layout, s: seq<bv8>): bv8
    requires |s| == StateLength88
  {
    Top3(s[7])
  }

  predicate GetTurbo(k: Heavy88Layout, s: seq<bv8>)
    requires |s| == StateLength88
  {
    GetFan(k, s) == k.fanTurbo
  }

  predicate GetEcono(k: Heavy88Layout, s: seq<bv8>)
    requires |s| == StateLength88
  {
    GetFan(k, s) == k.fanEcono
  }

  /** The part of the vertical swing held in byte 5. */
  function SwingV5(k: Heavy88Layout, s: seq<bv8>): bv8
    requires |s| == StateLength88
  {
    Pick(s[5], k.swingVMask5)
  }

  /** The part of the vertical swing held in byte 7. */
  function SwingV7(k: Heavy88Layout, s: seq<bv8>): bv8
    requires |s| == StateLength88
  {
    Pick(s[7], k.swingVMask7)
  }

  /** `getSwingVertical`: the two parts put together. */
  function GetSwingV(k: Heavy88Layout, s: seq<bv8>): bv8
    requires |s| == StateLength88
  {
    Join(SwingV5(k, s), SwingV7(k, s))
  }

  function GetSwingH(k: Heavy88Layout, s: seq<bv8>): bv8
    requires |s| == StateLength88
  {
    Pick(s[5], k.swingHMask)
  }

  /** `get3D`: the horizontal swing at 3D. */
  predicate Get3D(k: Heavy88Layout, s: seq<bv8>)
    requires |s| == StateLength88
  {
    GetSwingH(k, s) == k.swingH3D
  }

  predicate GetClean(k: Heavy88Layout, s: seq<bv8>)
    requires |s| == StateLength88
  {
    IsSet(s[5], k.cleanBit)
  }

  /** Everything the getters report. */
  datatype Heavy88Settings = Heavy88Settings(
    power: bool, mode: bv8, temp: bv8, fan: bv8, swingV: bv8, swingH: bv8, clean: bool)

  function SettingsOf(k: Heavy88Layout, s: seq<bv8>): Heavy88Settings
    requires |s| == StateLength88
  {
    Heavy88Settings(GetPower(k, s), GetMode(k, s), GetTemp(k, s), GetFan(k, s),
                    GetSwingV(k, s), GetSwingH(k, s), GetClean(k, s))
  }

  /** The settings of a reset state: every data byte 0, so everything off
      and 0, at the minimum temperature. */
  function ResetSettings(k: Heavy88Layout): Heavy88Settings {
    Heavy88Settings(false, 0, k.common.minTemp, 0, 0, 0, false)
  }

  // -------------------------------------------------------------------
  // Which byte each getter reads

  lemma Frame5(k: Heavy88Layout, s: seq<bv8>, t: seq<bv8>)
    requires |s| == |t| == StateLength88 && s[5] == t[5]
    ensures SwingV5(k, s) == SwingV5(k, t) && GetSwingH(k, s) == GetSwingH(k, t)
    ensures GetClean(k, s) == GetClean(k, t)
  {
  }

  lemma Frame7(k: Heavy88Layout, s: seq<bv8>, t: seq<bv8>)
    requires |s| == |t| == StateLength88 && s[7] == t[7]
    ensures GetFan(k, s) == GetFan(k, t) && SwingV7(k, s) == SwingV7(k, t)
  {
  }

  lemma Frame9(k: Heavy88Layout, s: seq<bv8>, t: seq<bv8>)
    requires |s| == |t| == StateLength88 && s[9] == t[9]
    ensures GetPower(k, s) == GetPower(k, t) && GetMode(k, s) == GetMode(k, t)
    ensures GetTemp(k, s) == GetTemp(k, t)
  {
  }

  /** Two states with the same data bytes report the same settings. */
  lemma SameData(k: Heavy88Layout, s: seq<bv8>, t: seq<bv8>)
    requires |s| == |t| == StateLength88 && s[5] == t[5] && s[7] == t[7] && s[9] == t[9]
    ensures SettingsOf(k, s) == SettingsOf(k, t)
  {
    Frame5(k, s, t);
    Frame7(k, s, t);
    Frame9(k, s, t);
  }

  // -------------------------------------------------------------------
  // One data byte replaced: the settings it holds take the values read
  // off the new byte, the others keep theirs

  lemma Byte5(k: Heavy88Layout, s: seq<bv8>, b: bv8, v5: bv8, swingH: bv8, clean: bool)
    requires |s| == StateLength88
    requires Pick(b, k.swingVMask5) == v5 && Pick(b, k.swingHMask) == swingH && IsSet(b, k.cleanBit) == clean
    ensures SwingV5(k, s[5 := b]) == v5
    ensures SettingsOf(k, s[5 := b]) ==
            SettingsOf(k, s).(swingV := Join(v5, SwingV7(k, s)), swingH := swingH, clean := clean)
  {
    var t := s[5 := b];
    Frame7(k, s, t);
    Frame9(k, s, t);
  }

  lemma Byte7(k: Heavy88Layout, s: seq<bv8>, b: bv8, fan: bv8, v7: bv8)
    requires |s| == StateLength88 && Top3(b) == fan && Pick(b, k.swingVMask7) == v7
    ensures SettingsOf(k, s[7 := b]) == SettingsOf(k, s).(fan := fan, swingV := Join(SwingV5(k, s), v7))
  {
    var t := s[7 := b];
    Frame5(k, s, t);
    Frame9(k, s, t);
  }

  lemma Byte9(k: Heavy88Layout, s: seq<bv8>, b: bv8, power: bool, mode: bv8, temp: bv8)
    requires |s| == StateLength88
    requires IsSet(b, k.common.powerBit) == power && Pick(b, k.common.modeMask) == mode
    requires Plus(Top4(b), k.common.minTemp) == temp
    ensures SettingsOf(k, s[9 := b]) == SettingsOf(k, s).(power := power, mode := mode, temp := temp)
  {
    var t := s[9 := b];
    Frame5(k, s, t);
    Frame7(k, s, t);
  }

  // -------------------------------------------------------------------
  // What each write does to the fields of its byte

  /** Setting or clearing the power bit keeps the mode and the top four
      bits. */
  lemma PowerKeeps(b: bv8, bit: bv8, on: bool, mode: bv8)
    requires bit != 0 && Apart(bit, mode) && Apart(bit, 0xF0)
    ensures IsSet(WriteBit(b, bit, on), bit) == on
    ensures Pick(WriteBit(b, bit, on), mode) == Pick(b, mode)
    ensures Top4(WriteBit(b, bit, on)) == Top4(b)
  {
    WriteBitSame(b, bit, on);
    WriteBitOther(b, bit, on, mode);
    WriteBitOther(b, bit, on, 0xF0);
    TopViews(WriteBit(b, bit, on), b);
  }

  /** A mode code written through the mode mask keeps the power bit and the
      top four bits. */
  lemma ModeKeeps(b: bv8, mask: bv8, v: bv8, bit: bv8)
    requires Fits(v, mask) && Apart(bit, mask) && Apart(0xF0, mask)
    ensures Pick(MaskSet(b, mask, v), mask) == v
    ensures IsSet(MaskSet(b, mask, v), bit) == IsSet(b, bit)
    ensures Top4(MaskSet(b, mask, v)) == Top4(b)
  {
    var n := MaskSet(b, mask, v);
    MaskSetSame(b, mask, v);
    Disjoint(v, mask, bit);
    MaskSetOther(b, mask, v, bit);
    Views(n, b, bit);
    Disjoint(v, mask, 0xF0);
    MaskSetOther(b, mask, v, 0xF0);
    TopViews(n, b);
  }

  /** A nibble put in the top four bits keeps the power bit and the mode,
      which lie in the kept bits. */
  lemma NibbleKeeps(b: bv8, keep: bv8, d: bv8, bit: bv8, mode: bv8)
    requires Apart(keep, 0xF0) && d < 16 && Fits(bit, keep) && Fits(mode, keep)
    ensures Top4(KeepSet(b, keep, d << 4)) == d
    ensures IsSet(KeepSet(b, keep, d << 4), bit) == IsSet(b, bit)
    ensures Pick(KeepSet(b, keep, d << 4), mode) == Pick(b, mode)
  {
    NibbleField(b, keep, d, bit);
    NibbleField(b, keep, d, mode);
    Views(KeepSet(b, keep, d << 4), b, bit);
  }

  /** A fan code in the top three bits keeps the swing part of byte 7. */
  lemma FanKeeps(b: bv8, mask: bv8, p: bv8, m7: bv8)
    requires CoversTop3(mask) && p < 8 && Apart(m7, mask)
    ensures Top3(MaskSet(b, mask, p << 5)) == p
    ensures Pick(MaskSet(b, mask, p << 5), m7) == Pick(b, m7)
  {
    TopField(b, mask, p);
    Disjoint(p << 5, mask, m7);
    MaskSetOther(b, mask, p << 5, m7);
  }

  /** The swing part of byte 7 keeps the top three bits, where the fan
      lies. */
  lemma SwingV7Keeps(b: bv8, m7: bv8, code: bv8, fanMask: bv8)
    requires Apart(m7, fanMask) && CoversTop3(fanMask)
    ensures Pick(MaskSet(b, m7, Pick(code, m7)), m7) == Pick(code, m7)
    ensures Top3(MaskSet(b, m7, Pick(code, m7))) == Top3(b)
  {
    var v := Pick(code, m7);
    Masked(code, m7);
    MaskSetSame(b, m7, v);
    BelowTop(m7, fanMask);
    Commute(m7, 0xE0);
    Disjoint(v, m7, 0xE0);
    MaskSetOther(b, m7, v, 0xE0);
    TopViews(MaskSet(b, m7, v), b);
  }

  /** A write through one of the masks of byte 5 keeps the field `p` and
      the clean bit, both apart from it. */
  lemma Byte5Keeps(b: bv8, mask: bv8, v: bv8, p: bv8, clean: bv8)
    requires Fits(v, mask) && Apart(p, mask) && Apart(clean, mask)
    ensures Pick(MaskSet(b, mask, v), mask) == v
    ensures Pick(MaskSet(b, mask, v), p) == Pick(b, p)
    ensures IsSet(MaskSet(b, mask, v), clean) == IsSet(b, clean)
  {
    MaskSetSame(b, mask, v);
    Disjoint(v, mask, p);
    MaskSetOther(b, mask, v, p);
    Disjoint(v, mask, clean);
    MaskSetOther(b, mask, v, clean);
    Views(MaskSet(b, mask, v), b, clean);
  }

  /** The clean bit keeps both swing fields of byte 5. */
  lemma CleanKeeps(b: bv8, bit: bv8, on: bool, m5: bv8, h: bv8)
    requires bit != 0 && Apart(bit, m5) && Apart(bit, h)
    ensures IsSet(WriteBit(b, bit, on), bit) == on
    ensures Pick(WriteBit(b, bit, on), m5) == Pick(b, m5)
    ensures Pick(WriteBit(b, bit, on), h) == Pick(b, h)
  {
    WriteBitSame(b, bit, on);
    WriteBitOther(b, bit, on, m5);
    WriteBitOther(b, bit, on, h);
  }

  // -------------------------------------------------------------------
  // What each setter's writes do to the settings

  /** `on`, `off`: the power bit alone changes. */
  lemma WritePower(k: Heavy88Layout, s: seq<bv8>, on: bool)
    requires k.Valid() && |s| == StateLength88
    ensures SettingsOf(k, s[9 := WriteBit(s[9], k.common.powerBit, on)]) == SettingsOf(k, s).(power := on)
  {
    var c := k.common;
    Commute(c.tempMask, 0xF0);
    Disjoint(c.powerBit, c.tempMask, 0xF0);
    Commute(c.powerBit, 0xF0);
    PowerKeeps(s[9], c.powerBit, on, c.modeMask);
    Byte9(k, s, WriteBit(s[9], c.powerBit, on), on, GetMode(k, s), GetTemp(k, s));
  }

  /** A code inside the mode field written to byte 9. */
  lemma WriteModeField(k: Heavy88Layout, s: seq<bv8>, v: bv8)
    requires |s| == StateLength88 && Fits(v, k.common.modeMask)
    requires Apart(k.common.powerBit, k.common.modeMask) && Apart(0xF0, k.common.modeMask)
    ensures SettingsOf(k, s[9 := MaskSet(s[9], k.common.modeMask, v)]) == SettingsOf(k, s).(mode := v)
  {
    var c := k.common;
    ModeKeeps(s[9], c.modeMask, v, c.powerBit);
    Byte9(k, s, MaskSet(s[9], c.modeMask, v), GetPower(k, s), v, GetTemp(k, s));
  }

  /** `setMode`'s write: an unknown mode stored as Auto. */
  lemma WriteMode(k: Heavy88Layout, s: seq<bv8>, mode: bv8)
    requires k.Valid() && |s| == StateLength88
    ensures SettingsOf(k, s[9 := MaskSet(s[9], k.common.modeMask, k.common.ModeCode(mode))]) ==
            SettingsOf(k, s).(mode := k.common.ModeCode(mode))
  {
    var c := k.common;
    Commute(c.tempMask, 0xF0);
    Disjoint(c.modeMask, c.tempMask, 0xF0);
    Commute(c.modeMask, 0xF0);
    WriteModeField(k, s, c.ModeCode(mode));
  }

  /** A temperature offset below 16 written to the top four bits reads
      back as the minimum plus the offset. */
  lemma WriteTempNibble(k: Heavy88Layout, s: seq<bv8>, d: bv8)
    requires |s| == StateLength88 && Apart(k.common.tempMask, 0xF0) && d < 16
    requires Fits(k.common.powerBit, k.common.tempMask) && Fits(k.common.modeMask, k.common.tempMask)
    ensures SettingsOf(k, s[9 := KeepSet(s[9], k.common.tempMask, d << 4)]) ==
            SettingsOf(k, s).(temp := Plus(d, k.common.minTemp))
  {
    var c := k.common;
    NibbleKeeps(s[9], c.tempMask, d, c.powerBit, c.modeMask);
    Byte9(k, s, KeepSet(s[9], c.tempMask, d << 4), GetPower(k, s), GetMode(k, s), Plus(d, c.minTemp));
  }

  /** `setTemp`'s write: the clamped temperature reads back. */
  lemma WriteTemp(k: Heavy88Layout, s: seq<bv8>, temp: bv8)
    requires |s| == StateLength88 && k.common.Valid() && Apart(k.common.tempMask, 0xF0)
    requires Fits(k.common.powerBit, k.common.tempMask) && Fits(k.common.modeMask, k.common.tempMask)
    requires NibbleRange(k.common.minTemp, k.common.maxTemp)
    ensures var c := k.common;
            SettingsOf(k, s[9 := KeepSet(s[9], c.tempMask, Offset(c.ClampTemp(temp), c.minTemp) << 4)]) ==
            SettingsOf(k, s).(temp := c.ClampTemp(temp))
  {
    WriteTempInRange(k, s, k.common.ClampTemp(temp));
  }

  /** A temperature in range written as its offset from the minimum reads
      back. */
  lemma WriteTempInRange(k: Heavy88Layout, s: seq<bv8>, t: bv8)
    requires |s| == StateLength88 && Apart(k.common.tempMask, 0xF0)
    requires Fits(k.common.powerBit, k.common.tempMask) && Fits(k.common.modeMask, k.common.tempMask)
    requires NibbleRange(k.common.minTemp, k.common.maxTemp) && k.common.minTemp <= t <= k.common.maxTemp
    ensures SettingsOf(k, s[9 := KeepSet(s[9], k.common.tempMask, Offset(t, k.common.minTemp) << 4)]) ==
            SettingsOf(k, s).(temp := t)
  {
    NibbleOffset(k.common.minTemp, k.common.maxTemp, t);
    WriteTempNibble(k, s, Offset(t, k.common.minTemp));
  }

  /** A fan code below 8 written to the top three bits of byte 7. */
  lemma WriteFanCode(k: Heavy88Layout, s: seq<bv8>, p: bv8)
    requires |s| == StateLength88 && CoversTop3(k.fanMask) && p < 8 && Apart(k.swingVMask7, k.fanMask)
    ensures SettingsOf(k, s[7 := MaskSet(s[7], k.fanMask, p << 5)]) == SettingsOf(k, s).(fan := p)
  {
    FanKeeps(s[7], k.fanMask, p, k.swingVMask7);
    Byte7(k, s, MaskSet(s[7], k.fanMask, p << 5), p, SwingV7(k, s));
  }

  /** `setFan`'s write: an unknown speed stored as Auto. */
  lemma WriteFan(k: Heavy88Layout, s: seq<bv8>, speed: bv8)
    requires k.Valid() && |s| == StateLength88
    ensures SettingsOf(k, s[7 := MaskSet(s[7], k.fanMask, k.FanCode(speed) << 5)]) ==
            SettingsOf(k, s).(fan := k.FanCode(speed))
  {
    WriteFanCode(k, s, k.FanCode(speed));
  }

  /** The two writes of a vertical position: its byte-5 part, then its
      byte-7 part; together they read back as the position. */
  lemma WriteSwingVCode(k: Heavy88Layout, s: seq<bv8>, code: bv8)
    requires |s| == StateLength88 && Fits(code, Join(k.swingVMask5, k.swingVMask7))
    requires Apart(k.swingHMask, k.swingVMask5) && Apart(k.cleanBit, k.swingVMask5)
    requires Apart(k.swingVMask7, k.fanMask) && CoversTop3(k.fanMask)
    ensures var s1 := s[5 := MaskSet(s[5], k.swingVMask5, Pick(code, k.swingVMask5))];
            SettingsOf(k, s1[7 := MaskSet(s1[7], k.swingVMask7, Pick(code, k.swingVMask7))]) ==
            SettingsOf(k, s).(swingV := code)
  {
    var m5, m7 := k.swingVMask5, k.swingVMask7;
    var b5 := MaskSet(s[5], m5, Pick(code, m5));
    var s1 := s[5 := b5];
    Masked(code, m5);
    Byte5Keeps(s[5], m5, Pick(code, m5), k.swingHMask, k.cleanBit);
    Byte5(k, s, b5, Pick(code, m5), GetSwingH(k, s), GetClean(k, s));
    SwingV7Keeps(s1[7], m7, code, k.fanMask);
    Byte7(k, s1, MaskSet(s1[7], m7, Pick(code, m7)), GetFan(k, s1), Pick(code, m7));
    SplitJoin(code, m5, m7);
  }

  /** `setSwingVertical`'s writes: an unknown position stored as Off. */
  lemma WriteSwingV(k: Heavy88Layout, s: seq<bv8>, pos: bv8)
    requires k.Valid() && |s| == StateLength88
    ensures var code := k.SwingVCode(pos);
            var s1 := s[5 := MaskSet(s[5], k.swingVMask5, Pick(code, k.swingVMask5))];
            SettingsOf(k, s1[7 := MaskSet(s1[7], k.swingVMask7, Pick(code, k.swingVMask7))]) ==
            SettingsOf(k, s).(swingV := code)
  {
    WriteSwingVCode(k, s, k.SwingVCode(pos));
  }

  /** A horizontal code inside its mask written to byte 5. */
  lemma WriteSwingHCode(k: Heavy88Layout, s: seq<bv8>, code: bv8)
    requires |s| == StateLength88 && Fits(code, k.swingHMask)
    requires Apart(k.swingVMask5, k.swingHMask) && Apart(k.cleanBit, k.swingHMask)
    ensures SettingsOf(k, s[5 := MaskSet(s[5], k.swingHMask, code)]) == SettingsOf(k, s).(swingH := code)
  {
    var b := MaskSet(s[5], k.swingHMask, code);
    Byte5Keeps(s[5], k.swingHMask, code, k.swingVMask5, k.cleanBit);
    Byte5(k, s, b, SwingV5(k, s), code, GetClean(k, s));
  }

  /** `setSwingHorizontal`'s write: an unknown position stored as Off. */
  lemma WriteSwingH(k: Heavy88Layout, s: seq<bv8>, pos: bv8)
    requires k.Valid() && |s| == StateLength88
    ensures SettingsOf(k, s[5 := MaskSet(s[5], k.swingHMask, k.SwingHCode(pos))]) ==
            SettingsOf(k, s).(swingH := k.SwingHCode(pos))
  {
    Commute(k.swingHMask, k.swingVMask5);
    WriteSwingHCode(k, s, k.SwingHCode(pos));
  }

  /** `setClean`'s write: the clean bit alone changes. */
  lemma WriteClean(k: Heavy88Layout, s: seq<bv8>, on: bool)
    requires k.Valid() && |s| == StateLength88
    ensures SettingsOf(k, s[5 := WriteBit(s[5], k.cleanBit, on)]) == SettingsOf(k, s).(clean := on)
  {
    CleanKeeps(s[5], k.cleanBit, on, k.swingVMask5, k.swingHMask);
    Byte5(k, s, WriteBit(s[5], k.cleanBit, on), SwingV5(k, s), GetSwingH(k, s), on);
  }

  // -------------------------------------------------------------------
  // Reset and checksum

  /** The state `stateReset` leaves: the ZJ-S signature, then zeros. */
  function ResetState(c: HeavyConsts): (r: seq<bv8>)
    requires c.Valid()
    ensures |r| == StateLength88 && HasSignature(r, c.zjsSig)
  {
    var r := seq(StateLength88, j requires 0 <= j < StateLength88 => if j < c.sigLength then c.zjsSig[j] else 0);
    assert r[..c.sigLength] == c.zjsSig;
    r
  }

  /** The reset data bytes are all zero, so the settings are the reset
      settings. */
  lemma ResetGivesSettings(k: Heavy88Layout)
    requires k.Valid()
    ensures SettingsOf(k, ResetState(k.common.c)) == ResetSettings(k)
  {
    var r := ResetState(k.common.c);
    assert r[5] == 0 && r[7] == 0 && r[9] == 0;
  }

  /** `checksum` writes only the complement bytes, which no getter reads. */
  lemma PairedKeepsSettings(k: Heavy88Layout, s: seq<bv8>)
    requires k.Valid() && |s| == StateLength88
    ensures SettingsOf(k, Paired(s, k.common.c.PairStart())) == SettingsOf(k, s)
  {
    var start := k.common.c.PairStart();
    var r := Paired(s, start);
    assert start == 1 || start == 3;
    assert !IsInverseIndex(start, 5) && !IsInverseIndex(start, 7) && !IsInverseIndex(start, 9);
    assert r[5] == s[5] && r[7] == s[7] && r[9] == s[9];
    SameData(k, s, r);
  }

  // -------------------------------------------------------------------
  // The class

  class HeavyAc88 {
    const k: Heavy88Layout
    const remoteState: array<bv8>

    predicate Valid() {
      k.Valid() && remoteState.Length == StateLength88
    }

    /** What the getters report on the current state. */
    function Settings(): Heavy88Settings
      requires Valid()
      reads remoteState
    {
      SettingsOf(k, remoteState[..])
    }

    /** The class constructor: a fresh state put in the reset state. */
    constructor (layout: Heavy88Layout)
      requires layout.Valid()
      ensures Valid() && k == layout && fresh(remoteState)
      ensures remoteState[..] == ResetState(k.common.c)
      ensures Settings() == ResetSettings(k)
    {
      k := layout;
      remoteState := new bv8[StateLength88](_ => 0);
      new;
      StateReset();
    }

    /** `stateReset`: the signature, then zeros to the end. */
    method StateReset()
      requires Valid()
      modifies remoteState
      ensures remoteState[..] == ResetState(k.common.c)
      ensures HasSignature(remoteState[..], k.common.c.zjsSig)
      ensures Settings() == ResetSettings(k)
    {
      var c := k.common.c;
      var i := 0;
      while i < c.sigLength
        invariant i <= c.sigLength
        invariant forall j :: 0 <= j < i ==> remoteState[j] == c.zjsSig[j]
      {
        remoteState[i] := c.zjsSig[i];
        i := i + 1;
      }
      while i < StateLength88
        invariant c.sigLength <= i <= StateLength88
        invariant forall j :: 0 <= j < c.sigLength ==> remoteState[j] == c.zjsSig[j]
        invariant forall j :: c.sigLength <= j < i ==> remoteState[j] == 0
      {
        remoteState[i] := 0;
        i := i + 1;
      }
      assert remoteState[..] == ResetState(c);
      ResetGivesSettings(k);
    }

    /** `checksum`: every second byte from `sigLength - 1` on becomes the
        complement of the byte before it. */
    method Checksum()
      requires Valid()
      modifies remoteState
      ensures remoteState[..] == Paired(old(remoteState[..]), k.common.c.PairStart())
      ensures PairsValid(remoteState[..], k.common.c.sigLength, StateLength88)
      ensures Settings() == old(Settings())
    {
      var c := k.common.c;
      assert (StateLength88 - c.PairStart()) % 2 == 0;
      ChecksumPairs(remoteState, c.PairStart());
      PairedValid(old(remoteState[..]), c.sigLength);
      PairedKeepsSettings(k, old(remoteState[..]));
    }

    /** `getRaw`: the state with its pairs recomputed in place. */
    method GetRaw() returns (r: seq<bv8>)
      requires Valid()
      modifies remoteState
      ensures r == remoteState[..] == Paired(old(remoteState[..]), k.common.c.PairStart())
      ensures PairsValid(r, k.common.c.sigLength, StateLength88)
      ensures Settings() == old(Settings())
    {
      Checksum();
      r := remoteState[..];
    }

    /** `setRaw`: the first 11 bytes of `data` copied into the state. */
    method SetRaw(data: seq<bv8>)
      requires Valid() && |data| >= StateLength88
      modifies remoteState
      ensures remoteState[..] == data[..StateLength88]
    {
      for i := 0 to StateLength88
        invariant forall j :: 0 <= j < i ==> remoteState[j] == data[j]
      {
        remoteState[i] := data[i];
      }
      assert remoteState[..] == data[..StateLength88];
    }

    /** `send`: the state with its pairs recomputed, sent as an 88-bit
        message. */
    method Send(repeat: uint16) returns (ps: seq<Pulse>)
      requires Valid()
      modifies remoteState
      ensures remoteState[..] == Paired(old(remoteState[..]), k.common.c.PairStart())
      ensures ps == SendBytes(HeavyTiming(k.common.c.gap), ToBytes(remoteState[..]), false, repeat)
    {
      var raw := GetRaw();
      ps := SendMitsubishiHeavy88(k.common.c.gap, ToBytes(raw), StateLength88 as uint16, repeat);
      assert ToBytes(raw)[..StateLength88] == ToBytes(raw);
    }

    /** `on`, `off` and `setPower`. */
    method SetPower(on: bool)
      requires Valid()
      modifies remoteState
      ensures remoteState[..] == old(remoteState[..])[9 := WriteBit(old(remoteState[9]), k.common.powerBit, on)]
      ensures Settings() == old(Settings()).(power := on)
    {
      ghost var s := remoteState[..];
      remoteState[9] := WriteBit(remoteState[9], k.common.powerBit, on);
      WritePower(k, s, on);
    }

    /** `setTemp`: the temperature clamped to the range, its offset from the
        minimum put in the top four bits; only the bits of the temperature
        mask are kept below it. */
    method SetTemp(temp: bv8)
      requires Valid()
      modifies remoteState
      ensures var c := k.common;
              remoteState[..] == old(remoteState[..])[9 := KeepSet(old(remoteState[9]), c.tempMask,
                                                                    Offset(c.ClampTemp(temp), c.minTemp) << 4)]
      ensures Settings() == old(Settings()).(temp := k.common.ClampTemp(temp))
    {
      var c := k.common;
      var newtemp := c.ClampTemp(temp);
      ghost var s := remoteState[..];
      remoteState[9] := KeepSet(remoteState[9], c.tempMask, Offset(newtemp, c.minTemp) << 4);
      WriteTemp(k, s, temp);
    }

    /** `setFan`: an unknown speed becomes Auto, stored in the top three
        bits of byte 7. */
    method SetFan(speed: bv8)
      requires Valid()
      modifies remoteState
      ensures remoteState[..] == old(remoteState[..])[7 := MaskSet(old(remoteState[7]), k.fanMask, k.FanCode(speed) << 5)]
      ensures Settings() == old(Settings()).(fan := k.FanCode(speed))
    {
      var newspeed := k.FanCode(speed);
      ghost var s := remoteState[..];
      remoteState[7] := MaskSet(remoteState[7], k.fanMask, newspeed << 5);
      WriteFan(k, s, speed);
    }

    /** `setMode`: an unknown mode becomes Auto. */
    method SetMode(mode: bv8)
      requires Valid()
      modifies remoteState
      ensures var c := k.common;
              remoteState[..] == old(remoteState[..])[9 := MaskSet(old(remoteState[9]), c.modeMask, c.ModeCode(mode))]
      ensures Settings() == old(Settings()).(mode := k.common.ModeCode(mode))
    {
      var c := k.common;
      var newmode := c.ModeCode(mode);
      ghost var s := remoteState[..];
      remoteState[9] := MaskSet(remoteState[9], c.modeMask, newmode);
      WriteMode(k, s, mode);
    }

    /** `setSwingVertical`: an unknown position becomes Off; its byte-5
        part goes to byte 5 and its byte-7 part to byte 7. */
    method SetSwingV(pos: bv8)
      requires Valid()
      modifies remoteState
      ensures var code := k.SwingVCode(pos);
              remoteState[..] ==
              old(remoteState[..])[5 := MaskSet(old(remoteState[5]), k.swingVMask5, Pick(code, k.swingVMask5))]
                                  [7 := MaskSet(old(remoteState[7]), k.swingVMask7, Pick(code, k.swingVMask7))]
      ensures Settings() == old(Settings()).(swingV := k.SwingVCode(pos))
    {
      var newpos := k.SwingVCode(pos);
      ghost var s := remoteState[..];
      remoteState[5] := MaskSet(remoteState[5], k.swingVMask5, Pick(newpos, k.swingVMask5));
      remoteState[7] := MaskSet(remoteState[7], k.swingVMask7, Pick(newpos, k.swingVMask7));
      WriteSwingV(k, s, pos);
    }

    /** `setSwingHorizontal`: an unknown position becomes Off. */
    method SetSwingH(pos: bv8)
      requires Valid()
      modifies remoteState
      ensures remoteState[..] == old(remoteState[..])[5 := MaskSet(old(remoteState[5]), k.swingHMask, k.SwingHCode(pos))]
      ensures Settings() == old(Settings()).(swingH := k.SwingHCode(pos))
    {
      var newpos := k.SwingHCode(pos);
      ghost var s := remoteState[..];
      remoteState[5] := MaskSet(remoteState[5], k.swingHMask, newpos);
      WriteSwingH(k, s, pos);
    }

    /** `setTurbo`: on sets the Turbo fan; off sets Auto only when the fan
        is at Turbo. */
    method SetTurbo(on: bool)
      requires Valid()
      modifies remoteState
      ensures Settings() == if on then old(Settings()).(fan := k.fanTurbo)
                            else if old(Settings()).fan == k.fanTurbo then old(Settings()).(fan := k.fanAuto)
                            else old(Settings())
    {
      if on {
        SetFan(k.fanTurbo);
      } else if GetTurbo(k, remoteState[..]) {
        SetFan(k.fanAuto);
      }
    }

    /** `setEcono`: on sets the Econo fan; off sets Auto only when the fan
        is at Econo. */
    method SetEcono(on: bool)
      requires Valid()
      modifies remoteState
      ensures Settings() == if on then old(Settings()).(fan := k.fanEcono)
                            else if old(Settings()).fan == k.fanEcono then old(Settings()).(fan := k.fanAuto)
                            else old(Settings())
    {
      if on {
        SetFan(k.fanEcono);
      } else if GetEcono(k, remoteState[..]) {
        SetFan(k.fanAuto);
      }
    }

    /** `set3D`: on sets the 3D horizontal swing; off sets Off only when the
        swing is at 3D. */
    method Set3D(on: bool)
      requires Valid()
      modifies remoteState
      ensures Settings() == if on then old(Settings()).(swingH := k.swingH3D)
                            else if old(Settings()).swingH == k.swingH3D then old(Settings()).(swingH := k.swingHOff)
                            else old(Settings())
    {
      if on {
        SetSwingH(k.swingH3D);
      } else if Get3D(k, remoteState[..]) {
        SetSwingH(k.swingHOff);
      }
    }

    method SetClean(on: bool)
      requires Valid()
      modifies remoteState
      ensures remoteState[..] == old(remoteState[..])[5 := WriteBit(old(remoteState[5]), k.cleanBit, on)]
      ensures Settings() == old(Settings()).(clean := on)
    {
      ghost var s := remoteState[..];
      remoteState[5] := WriteBit(remoteState[5], k.cleanBit, on);
      WriteClean(k, s, on);
    }
  }
}

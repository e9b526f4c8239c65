/** The `IRMitsubishiHeavy152Ac` class: the 19-byte ZM-S state held in
    place, its reset, raw access, the complement pairs recomputed by
    `getRaw`, and the setters with their fallbacks
    (src/ir_MitsubishiHeavy.cpp:75-304).

    Bytes 5, 7, 9, 11, 13 and 15 hold the settings; the bytes after each of
    them hold its complement once `checksum` has run. The masks and codes
    are the parameters of a `Heavy152Layout`. */
module MitsubishiHeavy152Ac {
  import opened Bits
  import opened IrSignal
  import opened MitsubishiHeavy
  import opened MitsubishiHeavyLayout

  datatype Heavy152Layout = Heavy152Layout(
    common: HeavyCommon,
    fanMask: bv8,
    fanAuto: bv8, fanLow: bv8, fanMed: bv8, fanHigh: bv8, fanMax: bv8, fanEcono: bv8, fanTurbo: bv8,
    swingVMask: bv8, swingVOff: bv8, swingHMask: bv8, swingHOff: bv8,
    nightBit: bv8, silentBit: bv8, threeDMask: bv8, filterBit: bv8, cleanBit: bv8)
  {
    /** The fields that share a byte do not overlap, a single bit is not 0,
        the codes fit their fields, the temperature offsets fit the low
        bits the temperature mask covers, and the vertical swing field is
        the top three bits of byte 11 (it is read back as `>> 5`). */
    predicate Valid() {
      common.Valid() &&
      // Byte 5: power, mode, filter and clean.
      filterBit != 0 && cleanBit != 0 &&
      Apart(filterBit, common.modeMask) && Apart(cleanBit, common.modeMask) &&
      Apart(common.powerBit, filterBit) && Apart(common.powerBit, cleanBit) && Apart(filterBit, cleanBit) &&
      // Byte 7: the temperature.
      OffsetRange(common.tempMask, common.minTemp, common.maxTemp) &&
      // Byte 9: the fan.
      Fits(fanAuto, fanMask) && Fits(fanLow, fanMask) && Fits(fanMed, fanMask) && Fits(fanHigh, fanMask) &&
      Fits(fanMax, fanMask) && Fits(fanEcono, fanMask) && Fits(fanTurbo, fanMask) &&
      // Byte 11: vertical swing and 3D.
      CoversTop3(swingVMask) && swingVOff < 8 && threeDMask != 0 && Apart(threeDMask, swingVMask) &&
      // Byte 15: night and silent.
      nightBit != 0 && silentBit != 0 && Apart(nightBit, silentBit)
    }

    /** The six fan speeds `setFan` keeps; any other becomes Auto. */
    predicate KnownFan(speed: bv8) {
      speed == fanLow || speed == fanMed || speed == fanHigh || speed == fanMax ||
      speed == fanEcono || speed == fanTurbo
    }

    /** The fan speed `setFan` stores. */
    function FanCode(speed: bv8): (r: bv8)
      ensures r == speed || r == fanAuto
      ensures KnownFan(speed) ==> r == speed
      ensures Valid() ==> Fits(r, fanMask)
    {
      if KnownFan(speed) then speed else fanAuto
    }

    /** `std::min(pos, kMitsubishiHeavy152SwingVOff)`. */
    function SwingVCode(pos: bv8): (r: bv8)
      ensures r <= pos && r <= swingVOff && (r == pos || r == swingVOff)
    {
      if pos < swingVOff then pos else swingVOff
    }

    /** `std::min(pos, kMitsubishiHeavy152SwingHOff)`. */
    function SwingHCode(pos: bv8): (r: bv8)
      ensures r <= pos && r <= swingHOff && (r == pos || r == swingHOff)
    {
      if pos < swingHOff then pos else swingHOff
    }
  }

  // -------------------------------------------------------------------
  // The getters, read off a 19-byte state

  predicate GetPower(k: Heavy152Layout, s: seq<bv8>)
    requires |s| == StateLength152
  {
    IsSet(s[5], k.common.powerBit)
  }

  function GetMode(k: Heavy152Layout, s: seq<bv8>): bv8
    requires |s| == StateLength152
  {
    Pick(s[5], k.common.modeMask)
  }

  predicate GetFilter(k: Heavy152Layout, s: seq<bv8>)
    requires |s| == StateLength152
  {
    IsSet(s[5], k.filterBit)
  }

  /** The clean bit alone. */
  predicate CleanBit(k: Heavy152Layout, s: seq<bv8>)
    requires |s| == StateLength152
  {
    IsSet(s[5], k.cleanBit)
  }

  /** `getClean` needs the clean bit and the filter bit. */
  predicate GetClean(k: Heavy152Layout, s: seq<bv8>)
    requires |s| == StateLength152
  {
    CleanBit(k, s) && GetFilter(k, s)
  }

  /** `getTemp`: the stored offset plus the minimum. */
  function GetTemp(k: Heavy152Layout, s: seq<bv8>): bv8
    requires |s| == StateLength152
  {
    Plus(Pick(s[7], k.common.tempMask), k.common.minTemp)
  }

  function GetFan(k: Heavy152Layout, s: seq<bv8>): bv8
    requires |s| == StateLength152
  {
    Pick(s[9], k.fanMask)
  }

  predicate GetTurbo(k: Heavy152Layout, s: seq<bv8>)
    requires |s| == StateLength152
  {
    GetFan(k, s) == k.fanTurbo
  }

  predicate GetEcono(k: Heavy152Layout, s: seq<bv8>)
    requires |s| == StateLength152
  {
    GetFan(k, s) == k.fanEcono
  }

  /** `getSwingVertical`: the top three bits of byte 11. */
  function GetSwingV(k: Heavy152Layout, s: seq<bv8>): bv8
    requires |s| == StateLength152
  {
    Top3(s[11])
  }

  /** `get3D`: every bit of the 3D mask set. */
  predicate Get3D(k: Heavy152Layout, s: seq<bv8>)
    requires |s| == StateLength152
  {
    AllSet(s[11], k.threeDMask)
  }

  function GetSwingH(k: Heavy152Layout, s: seq<bv8>): bv8
    requires |s| == StateLength152
  {
    Pick(s[13], k.swingHMask)
  }

  predicate GetNight(k: Heavy152Layout, s: seq<bv8>)
    requires |s| == StateLength152
  {
    IsSet(s[15], k.nightBit)
  }

  predicate GetSilent(k: Heavy152Layout, s: seq<bv8>)
    requires |s| == StateLength152
  {
    IsSet(s[15], k.silentBit)
  }

  /** Everything the getters report; `cleanBit` is the clean bit alone,
      `getClean` is `cleanBit && filter`. */
  datatype Heavy152Settings = Heavy152Settings(
    power: bool, mode: bv8, filter: bool, cleanBit: bool, temp: bv8, fan: bv8,
    swingV: bv8, threeD: bool, swingH: bv8, night: bool, silent: bool)

  function SettingsOf(k: Heavy152Layout, s: seq<bv8>): Heavy152Settings
    requires |s| == StateLength152
  {
    Heavy152Settings(GetPower(k, s), GetMode(k, s), GetFilter(k, s), CleanBit(k, s),
                     GetTemp(k, s), GetFan(k, s), GetSwingV(k, s), Get3D(k, s), GetSwingH(k, s),
                     GetNight(k, s), GetSilent(k, s))
  }

  /** The settings of a reset state: every data byte 0, so everything off
      and 0, at the minimum temperature. */
  function ResetSettings(k: Heavy152Layout): Heavy152Settings {
    Heavy152Settings(false, 0, false, false, k.common.minTemp, 0, 0, false, 0, false, false)
  }

  // -------------------------------------------------------------------
  // Which byte each getter reads

  lemma Frame5(k: Heavy152Layout, s: seq<bv8>, t: seq<bv8>)
    requires |s| == |t| == StateLength152 && s[5] == t[5]
    ensures GetPower(k, s) == GetPower(k, t) && GetMode(k, s) == GetMode(k, t)
    ensures GetFilter(k, s) == GetFilter(k, t) && CleanBit(k, s) == CleanBit(k, t)
  {
  }

  lemma Frame7(k: Heavy152Layout, s: seq<bv8>, t: seq<bv8>)
    requires |s| == |t| == StateLength152 && s[7] == t[7]
    ensures GetTemp(k, s) == GetTemp(k, t)
  {
  }

  lemma Frame9(k: Heavy152Layout, s: seq<bv8>, t: seq<bv8>)
    requires |s| == |t| == StateLength152 && s[9] == t[9]
    ensures GetFan(k, s) == GetFan(k, t)
  {
  }

  lemma Frame11(k: Heavy152Layout, s: seq<bv8>, t: seq<bv8>)
    requires |s| == |t| == StateLength152 && s[11] == t[11]
    ensures GetSwingV(k, s) == GetSwingV(k, t) && Get3D(k, s) == Get3D(k, t)
  {
  }

  lemma Frame13(k: Heavy152Layout, s: seq<bv8>, t: seq<bv8>)
    requires |s| == |t| == StateLength152 && s[13] == t[13]
    ensures GetSwingH(k, s) == GetSwingH(k, t)
  {
  }

  lemma Frame15(k: Heavy152Layout, s: seq<bv8>, t: seq<bv8>)
    requires |s| == |t| == StateLength152 && s[15] == t[15]
    ensures GetNight(k, s) == GetNight(k, t) && GetSilent(k, s) == GetSilent(k, t)
  {
  }

  /** Two states with the same data bytes report the same settings. */
  lemma SameData(k: Heavy152Layout, s: seq<bv8>, t: seq<bv8>)
    requires |s| == |t| == StateLength152
    requires s[5] == t[5] && s[7] == t[7] && s[9] == t[9] && s[11] == t[11] && s[13] == t[13] && s[15] == t[15]
    ensures SettingsOf(k, s) == SettingsOf(k, t)
  {
    Frame5(k, s, t);
    Frame7(k, s, t);
    Frame9(k, s, t);
    Frame11(k, s, t);
    Frame13(k, s, t);
    Frame15(k, s, t);
  }

  // -------------------------------------------------------------------
  // One data byte replaced: the settings it holds take the values read
  // off the new byte, the others keep theirs

  lemma Byte5(k: Heavy152Layout, s: seq<bv8>, b: bv8, power: bool, mode: bv8, filter: bool, clean: bool)
    requires |s| == StateLength152
    requires IsSet(b, k.common.powerBit) == power && Pick(b, k.common.modeMask) == mode
    requires IsSet(b, k.filterBit) == filter && IsSet(b, k.cleanBit) == clean
    ensures SettingsOf(k, s[5 := b]) ==
            SettingsOf(k, s).(power := power, mode := mode, filter := filter, cleanBit := clean)
  {
    var t := s[5 := b];
    Frame7(k, s, t);
    Frame9(k, s, t);
    Frame11(k, s, t);
    Frame13(k, s, t);
    Frame15(k, s, t);
  }

  lemma Byte7(k: Heavy152Layout, s: seq<bv8>, b: bv8, temp: bv8)
    requires |s| == StateLength152 && Plus(Pick(b, k.common.tempMask), k.common.minTemp) == temp
    ensures SettingsOf(k, s[7 := b]) == SettingsOf(k, s).(temp := temp)
  {
    var t := s[7 := b];
    Frame5(k, s, t);
    Frame9(k, s, t);
    Frame11(k, s, t);
    Frame13(k, s, t);
    Frame15(k, s, t);
  }

  lemma Byte9(k: Heavy152Layout, s: seq<bv8>, b: bv8, fan: bv8)
    requires |s| == StateLength152 && Pick(b, k.fanMask) == fan
    ensures SettingsOf(k, s[9 := b]) == SettingsOf(k, s).(fan := fan)
  {
    var t := s[9 := b];
    Frame5(k, s, t);
    Frame7(k, s, t);
    Frame11(k, s, t);
    Frame13(k, s, t);
    Frame15(k, s, t);
  }

  lemma Byte11(k: Heavy152Layout, s: seq<bv8>, b: bv8, swingV: bv8, threeD: bool)
    requires |s| == StateLength152 && Top3(b) == swingV && AllSet(b, k.threeDMask) == threeD
    ensures SettingsOf(k, s[11 := b]) == SettingsOf(k, s).(swingV := swingV, threeD := threeD)
  {
    var t := s[11 := b];
    Frame5(k, s, t);
    Frame7(k, s, t);
    Frame9(k, s, t);
    Frame13(k, s, t);
    Frame15(k, s, t);
  }

  lemma Byte13(k: Heavy152Layout, s: seq<bv8>, b: bv8, swingH: bv8)
    requires |s| == StateLength152 && Pick(b, k.swingHMask) == swingH
    ensures SettingsOf(k, s[13 := b]) == SettingsOf(k, s).(swingH := swingH)
  {
    var t := s[13 := b];
    Frame5(k, s, t);
    Frame7(k, s, t);
    Frame9(k, s, t);
    Frame11(k, s, t);
    Frame15(k, s, t);
  }

  lemma Byte15(k: Heavy152Layout, s: seq<bv8>, b: bv8, night: bool, silent: bool)
    requires |s| == StateLength152 && IsSet(b, k.nightBit) == night && IsSet(b, k.silentBit) == silent
    ensures SettingsOf(k, s[15 := b]) == SettingsOf(k, s).(night := night, silent := silent)
  {
    var t := s[15 := b];
    Frame5(k, s, t);
    Frame7(k, s, t);
    Frame9(k, s, t);
    Frame11(k, s, t);
    Frame13(k, s, t);
  }

  // -------------------------------------------------------------------
  // What each setter's byte write does to the settings

  /** `on`, `off`: the power bit alone changes. */
  lemma WritePower(k: Heavy152Layout, s: seq<bv8>, on: bool)
    requires k.Valid() && |s| == StateLength152
    ensures SettingsOf(k, s[5 := WriteBit(s[5], k.common.powerBit, on)]) == SettingsOf(k, s).(power := on)
  {
    var c := k.common;
    WriteBitKeeps(s[5], c.powerBit, on, c.modeMask, k.filterBit, k.cleanBit);
    Byte5(k, s, WriteBit(s[5], c.powerBit, on), on, GetMode(k, s), GetFilter(k, s), CleanBit(k, s));
  }

  /** `setFilter`'s write: the filter bit alone changes. */
  lemma WriteFilter(k: Heavy152Layout, s: seq<bv8>, on: bool)
    requires k.Valid() && |s| == StateLength152
    ensures SettingsOf(k, s[5 := WriteBit(s[5], k.filterBit, on)]) == SettingsOf(k, s).(filter := on)
  {
    var c := k.common;
    Commute(c.powerBit, k.filterBit);
    WriteBitKeeps(s[5], k.filterBit, on, c.modeMask, c.powerBit, k.cleanBit);
    Byte5(k, s, WriteBit(s[5], k.filterBit, on), GetPower(k, s), GetMode(k, s), on, CleanBit(k, s));
  }

  /** `setClean`'s second write: the clean bit alone changes. */
  lemma WriteCleanBit(k: Heavy152Layout, s: seq<bv8>, on: bool)
    requires k.Valid() && |s| == StateLength152
    ensures SettingsOf(k, s[5 := WriteBit(s[5], k.cleanBit, on)]) == SettingsOf(k, s).(cleanBit := on)
  {
    var c := k.common;
    Commute(c.powerBit, k.cleanBit);
    Commute(k.filterBit, k.cleanBit);
    WriteBitKeeps(s[5], k.cleanBit, on, c.modeMask, c.powerBit, k.filterBit);
    Byte5(k, s, WriteBit(s[5], k.cleanBit, on), GetPower(k, s), GetMode(k, s), GetFilter(k, s), on);
  }

  /** A code inside the mode field written to byte 5: the bits beside it
      keep their values. */
  lemma WriteModeField(k: Heavy152Layout, s: seq<bv8>, v: bv8)
    requires |s| == StateLength152 && Fits(v, k.common.modeMask)
    requires Apart(k.common.powerBit, k.common.modeMask)
    requires Apart(k.filterBit, k.common.modeMask) && Apart(k.cleanBit, k.common.modeMask)
    ensures SettingsOf(k, s[5 := MaskSet(s[5], k.common.modeMask, v)]) == SettingsOf(k, s).(mode := v)
  {
    var c := k.common;
    MaskSetKeeps(s[5], c.modeMask, v, c.powerBit, k.filterBit, k.cleanBit);
    ModeByte(k, s, MaskSet(s[5], c.modeMask, v), v);
  }

  /** A byte 5 that differs from the old one in its mode bits alone
      changes the mode alone. */
  lemma ModeByte(k: Heavy152Layout, s: seq<bv8>, b: bv8, v: bv8)
    requires |s| == StateLength152 && Pick(b, k.common.modeMask) == v
    requires IsSet(b, k.common.powerBit) == IsSet(s[5], k.common.powerBit)
    requires IsSet(b, k.filterBit) == IsSet(s[5], k.filterBit) && IsSet(b, k.cleanBit) == IsSet(s[5], k.cleanBit)
    ensures SettingsOf(k, s[5 := b]) == SettingsOf(k, s).(mode := v)
  {
    Byte5(k, s, b, GetPower(k, s), v, GetFilter(k, s), CleanBit(k, s));
  }

  /** `setMode`'s write: the mode field takes the code, the bits beside it
      keep their values. */
  lemma WriteMode(k: Heavy152Layout, s: seq<bv8>, mode: bv8)
    requires k.Valid() && |s| == StateLength152
    ensures SettingsOf(k, s[5 := MaskSet(s[5], k.common.modeMask, k.common.ModeCode(mode))]) ==
            SettingsOf(k, s).(mode := k.common.ModeCode(mode))
  {
    WriteModeField(k, s, k.common.ModeCode(mode));
  }

  /** A temperature in range written as its offset reads back. */
  lemma WriteTempInRange(k: Heavy152Layout, s: seq<bv8>, t: bv8)
    requires |s| == StateLength152
    requires OffsetRange(k.common.tempMask, k.common.minTemp, k.common.maxTemp)
    requires k.common.minTemp <= t <= k.common.maxTemp
    ensures SettingsOf(k, s[7 := MaskSet(s[7], k.common.tempMask, Offset(t, k.common.minTemp))]) ==
            SettingsOf(k, s).(temp := t)
  {
    var c := k.common;
    OffsetStored(s[7], c.tempMask, c.minTemp, c.maxTemp, t);
    Byte7(k, s, MaskSet(s[7], c.tempMask, Offset(t, c.minTemp)), t);
  }

  /** `setTemp`'s write: the offset of the clamped temperature from the
      minimum reads back as that temperature. */
  lemma WriteTemp(k: Heavy152Layout, s: seq<bv8>, temp: bv8)
    requires |s| == StateLength152 && k.common.Valid()
    requires OffsetRange(k.common.tempMask, k.common.minTemp, k.common.maxTemp)
    ensures var c := k.common;
            SettingsOf(k, s[7 := MaskSet(s[7], c.tempMask, Offset(c.ClampTemp(temp), c.minTemp))]) ==
            SettingsOf(k, s).(temp := c.ClampTemp(temp))
  {
    WriteTempInRange(k, s, k.common.ClampTemp(temp));
  }

  /** `setFan`'s write. */
  lemma WriteFan(k: Heavy152Layout, s: seq<bv8>, speed: bv8)
    requires k.Valid() && |s| == StateLength152
    ensures SettingsOf(k, s[9 := MaskSet(s[9], k.fanMask, k.FanCode(speed))]) ==
            SettingsOf(k, s).(fan := k.FanCode(speed))
  {
    MaskSetSame(s[9], k.fanMask, k.FanCode(speed));
    Byte9(k, s, MaskSet(s[9], k.fanMask, k.FanCode(speed)), k.FanCode(speed));
  }

  /** `setSwingVertical`'s write: the position, at most Off, in the top
      three bits; 3D keeps its value. */
  lemma WriteSwingV(k: Heavy152Layout, s: seq<bv8>, pos: bv8)
    requires k.Valid() && |s| == StateLength152
    ensures SettingsOf(k, s[11 := MaskSet(s[11], k.swingVMask, k.SwingVCode(pos) << 5)]) ==
            SettingsOf(k, s).(swingV := k.SwingVCode(pos))
  {
    var p := k.SwingVCode(pos);
    var n := MaskSet(s[11], k.swingVMask, p << 5);
    TopField(s[11], k.swingVMask, p);
    Disjoint(p << 5, k.swingVMask, k.threeDMask);
    MaskSetOther(s[11], k.swingVMask, p << 5, k.threeDMask);
    Views(n, s[11], k.threeDMask);
    Byte11(k, s, n, p, Get3D(k, s));
  }

  /** `set3D`'s write: the vertical swing keeps its value. */
  lemma Write3D(k: Heavy152Layout, s: seq<bv8>, on: bool)
    requires k.Valid() && |s| == StateLength152
    ensures SettingsOf(k, s[11 := WriteBit(s[11], k.threeDMask, on)]) == SettingsOf(k, s).(threeD := on)
  {
    var n := WriteBit(s[11], k.threeDMask, on);
    BelowTop(k.threeDMask, k.swingVMask);
    WriteBitOther(s[11], k.threeDMask, on, 0xE0);
    TopViews(n, s[11]);
    WriteBitAll(s[11], k.threeDMask, on);
    Byte11(k, s, n, GetSwingV(k, s), on);
  }

  /** `setSwingHorizontal`'s write: the position, at most Off, through the
      mask. */
  lemma WriteSwingH(k: Heavy152Layout, s: seq<bv8>, pos: bv8)
    requires |s| == StateLength152
    ensures SettingsOf(k, s[13 := MaskSet(s[13], k.swingHMask, Pick(k.SwingHCode(pos), k.swingHMask))]) ==
            SettingsOf(k, s).(swingH := Pick(k.SwingHCode(pos), k.swingHMask))
  {
    var v := Pick(k.SwingHCode(pos), k.swingHMask);
    Masked(k.SwingHCode(pos), k.swingHMask);
    MaskSetSame(s[13], k.swingHMask, v);
    Byte13(k, s, MaskSet(s[13], k.swingHMask, v), v);
  }

  /** `setNight`'s write: the night bit alone changes. */
  lemma WriteNight(k: Heavy152Layout, s: seq<bv8>, on: bool)
    requires k.Valid() && |s| == StateLength152
    ensures SettingsOf(k, s[15 := WriteBit(s[15], k.nightBit, on)]) == SettingsOf(k, s).(night := on)
  {
    var n := WriteBit(s[15], k.nightBit, on);
    WriteBitSame(s[15], k.nightBit, on);
    WriteBitOther(s[15], k.nightBit, on, k.silentBit);
    Views(n, s[15], k.silentBit);
    Byte15(k, s, n, on, GetSilent(k, s));
  }

  /** `setSilent`'s write: the silent bit alone changes. */
  lemma WriteSilent(k: Heavy152Layout, s: seq<bv8>, on: bool)
    requires k.Valid() && |s| == StateLength152
    ensures SettingsOf(k, s[15 := WriteBit(s[15], k.silentBit, on)]) == SettingsOf(k, s).(silent := on)
  {
    var n := WriteBit(s[15], k.silentBit, on);
    Commute(k.nightBit, k.silentBit);
    WriteBitSame(s[15], k.silentBit, on);
    WriteBitOther(s[15], k.silentBit, on, k.nightBit);
    Views(n, s[15], k.nightBit);
    Byte15(k, s, n, GetNight(k, s), on);
  }

  // -------------------------------------------------------------------
  // Reset and checksum

  /** The state `stateReset` leaves: the ZM-S signature, zeros in every
      second byte from the end of the signature up to byte 15, 0x80 in
      byte 17, and every other byte as it was. */
  function ResetState(c: HeavyConsts, s: seq<bv8>): (r: seq<bv8>)
    requires c.Valid() && |s| == StateLength152
    ensures |r| == StateLength152
  {
    seq(StateLength152, j requires 0 <= j < StateLength152 =>
      if j < c.sigLength then c.zmsSig[j]
      else if j < StateLength152 - 3 && (j - c.sigLength) % 2 == 0 then 0
      else if j == 17 then 0x80
      else s[j])
  }

  /** `stateReset` part way through its second loop. */
  ghost function ResetBelow(c: HeavyConsts, s: seq<bv8>, i: nat): (r: seq<bv8>)
    requires c.Valid() && |s| == StateLength152
    ensures |r| == StateLength152
  {
    seq(StateLength152, j requires 0 <= j < StateLength152 =>
      if j < c.sigLength then c.zmsSig[j]
      else if j < i && (j - c.sigLength) % 2 == 0 then 0
      else s[j])
  }

  lemma ResetBelowStep(c: HeavyConsts, s: seq<bv8>, n: nat, i: nat)
    requires c.Valid() && |s| == StateLength152 && i == c.sigLength + 2 * n && i < StateLength152
    ensures ResetBelow(c, s, i + 2) == ResetBelow(c, s, i)[i := 0]
  {
    assert (i - c.sigLength) % 2 == 0 && (i + 1 - c.sigLength) % 2 == 1;
  }

  /** A state whose data bytes are all zero reports the reset settings. */
  lemma ZeroSettings(k: Heavy152Layout, s: seq<bv8>)
    requires k.Valid() && |s| == StateLength152
    requires s[5] == 0 && s[7] == 0 && s[9] == 0 && s[11] == 0 && s[13] == 0 && s[15] == 0
    ensures SettingsOf(k, s) == ResetSettings(k)
  {
  }

  /** The reset data bytes are all zero, so the settings are the reset
      settings. */
  lemma ResetGivesSettings(k: Heavy152Layout, s: seq<bv8>)
    requires k.Valid() && |s| == StateLength152
    ensures SettingsOf(k, ResetState(k.common.c, s)) == ResetSettings(k)
  {
    var c := k.common.c;
    var r := ResetState(c, s);
    assert c.sigLength == 3 || c.sigLength == 5;
    assert r[5] == 0 && r[7] == 0 && r[9] == 0 && r[11] == 0 && r[13] == 0 && r[15] == 0;
    ZeroSettings(k, r);
  }

  /** `checksum` writes only the complement bytes, which no getter reads. */
  lemma PairedKeepsSettings(k: Heavy152Layout, s: seq<bv8>)
    requires k.Valid() && |s| == StateLength152
    ensures SettingsOf(k, Paired(s, k.common.c.PairStart())) == SettingsOf(k, s)
  {
    var start := k.common.c.PairStart();
    var r := Paired(s, start);
    assert start == 1 || start == 3;
    assert !IsInverseIndex(start, 5) && !IsInverseIndex(start, 7) && !IsInverseIndex(start, 9);
    assert !IsInverseIndex(start, 11) && !IsInverseIndex(start, 13) && !IsInverseIndex(start, 15);
    assert r[5] == s[5] && r[7] == s[7] && r[9] == s[9] && r[11] == s[11] && r[13] == s[13] && r[15] == s[15];
    SameData(k, s, r);
  }

  // -------------------------------------------------------------------
  // The class

  class HeavyAc152 {
    const k: Heavy152Layout
    const remoteState: array<bv8>

    predicate Valid() {
      k.Valid() && remoteState.Length == StateLength152
    }

    /** What the getters report on the current state. */
    function Settings(): Heavy152Settings
      requires Valid()
      reads remoteState
    {
      SettingsOf(k, remoteState[..])
    }

    /** The class constructor: a fresh state put in the reset state. The
        bytes `stateReset` does not write are zero here; the C++ member
        array is left uninitialised. */
    constructor (layout: Heavy152Layout)
      requires layout.Valid()
      ensures Valid() && k == layout && fresh(remoteState)
      ensures remoteState[..] == ResetState(k.common.c, seq(StateLength152, _ => 0))
      ensures remoteState[17] == 0x80
      ensures HasSignature(remoteState[..], k.common.c.zmsSig)
      ensures Settings() == ResetSettings(k)
    {
      k := layout;
      remoteState := new bv8[StateLength152](_ => 0);
      new;
      StateReset();
    }

    /** `stateReset`: the signature, then a zero in every second byte up
        to byte 15, and 0x80 in byte 17. */
    method StateReset()
      requires Valid()
      modifies remoteState
      ensures remoteState[..] == ResetState(k.common.c, old(remoteState[..]))
      ensures HasSignature(remoteState[..], k.common.c.zmsSig)
      ensures Settings() == ResetSettings(k)
    {
      var c := k.common.c;
      var i := 0;
      while i < c.sigLength
        invariant i <= c.sigLength
        invariant forall j :: 0 <= j < i ==> remoteState[j] == c.zmsSig[j]
        invariant forall j :: i <= j < StateLength152 ==> remoteState[j] == old(remoteState[j])
      {
        remoteState[i] := c.zmsSig[i];
        i := i + 1;
      }
      assert remoteState[..] == ResetBelow(c, old(remoteState[..]), i);
      ghost var n := 0;
      while i < StateLength152 - 3
        invariant i == c.sigLength + 2 * n && i <= StateLength152 - 2
        invariant remoteState[..] == ResetBelow(c, old(remoteState[..]), i)
        decreases StateLength152 - i
      {
        ResetBelowStep(c, old(remoteState[..]), n, i);
        remoteState[i] := 0;
        i, n := i + 2, n + 1;
      }
      remoteState[17] := 0x80;
      assert remoteState[..] == ResetState(c, old(remoteState[..]));
      assert remoteState[..][..c.sigLength] == c.zmsSig;
      ResetGivesSettings(k, old(remoteState[..]));
    }

    /** `checksum`: every second byte from `sigLength - 1` on becomes the
        complement of the byte before it. */
    method Checksum()
      requires Valid()
      modifies remoteState
      ensures remoteState[..] == Paired(old(remoteState[..]), k.common.c.PairStart())
      ensures PairsValid(remoteState[..], k.common.c.sigLength, StateLength152)
      ensures Settings() == old(Settings())
    {
      var c := k.common.c;
      assert (StateLength152 - c.PairStart()) % 2 == 0;
      ChecksumPairs(remoteState, c.PairStart());
      PairedValid(old(remoteState[..]), c.sigLength);
      PairedKeepsSettings(k, old(remoteState[..]));
    }

    /** `getRaw`: the state with its pairs recomputed in place. */
    method GetRaw() returns (r: seq<bv8>)
      requires Valid()
      modifies remoteState
      ensures r == remoteState[..] == Paired(old(remoteState[..]), k.common.c.PairStart())
      ensures PairsValid(r, k.common.c.sigLength, StateLength152)
      ensures Settings() == old(Settings())
    {
      Checksum();
      r := remoteState[..];
    }

    /** `setRaw`: the first 19 bytes of `data` copied into the state. */
    method SetRaw(data: seq<bv8>)
      requires Valid() && |data| >= StateLength152
      modifies remoteState
      ensures remoteState[..] == data[..StateLength152]
    {
      for i := 0 to StateLength152
        invariant forall j :: 0 <= j < i ==> remoteState[j] == data[j]
      {
        remoteState[i] := data[i];
      }
      assert remoteState[..] == data[..StateLength152];
    }

    /** `send`: the state with its pairs recomputed, sent as a 152-bit
        message. */
    method Send(repeat: uint16) returns (ps: seq<Pulse>)
      requires Valid()
      modifies remoteState
      ensures remoteState[..] == Paired(old(remoteState[..]), k.common.c.PairStart())
      ensures ps == SendBytes(HeavyTiming(k.common.c.gap), ToBytes(remoteState[..]), false, repeat)
    {
      var raw := GetRaw();
      ps := SendMitsubishiHeavy152(k.common.c.gap, ToBytes(raw), StateLength152 as uint16, repeat);
      assert ToBytes(raw)[..StateLength152] == ToBytes(raw);
    }

    /** `on`, `off` and `setPower`. */
    method SetPower(on: bool)
      requires Valid()
      modifies remoteState
      ensures remoteState[..] == old(remoteState[..])[5 := WriteBit(old(remoteState[5]), k.common.powerBit, on)]
      ensures Settings() == old(Settings()).(power := on)
    {
      ghost var s := remoteState[..];
      remoteState[5] := WriteBit(remoteState[5], k.common.powerBit, on);
      WritePower(k, s, on);
    }

    /** `setTemp`: the temperature clamped to the range and stored as its
        offset from the minimum. */
    method SetTemp(temp: bv8)
      requires Valid()
      modifies remoteState
      ensures var c := k.common;
              remoteState[..] == old(remoteState[..])[7 := MaskSet(old(remoteState[7]), c.tempMask,
                                                                    Offset(c.ClampTemp(temp), c.minTemp))]
      ensures Settings() == old(Settings()).(temp := k.common.ClampTemp(temp))
    {
      var c := k.common;
      var newtemp := c.ClampTemp(temp);
      ghost var s := remoteState[..];
      remoteState[7] := MaskSet(remoteState[7], c.tempMask, Offset(newtemp, c.minTemp));
      WriteTemp(k, s, temp);
    }

    /** `setFan`: an unknown speed becomes Auto. */
    method SetFan(speed: bv8)
      requires Valid()
      modifies remoteState
      ensures remoteState[..] == old(remoteState[..])[9 := MaskSet(old(remoteState[9]), k.fanMask, k.FanCode(speed))]
      ensures Settings() == old(Settings()).(fan := k.FanCode(speed))
    {
      var newspeed := k.FanCode(speed);
      ghost var s := remoteState[..];
      remoteState[9] := MaskSet(remoteState[9], k.fanMask, newspeed);
      WriteFan(k, s, speed);
    }

    /** `setMode`: an unknown mode becomes Auto. */
    method SetMode(mode: bv8)
      requires Valid()
      modifies remoteState
      ensures var c := k.common;
              remoteState[..] == old(remoteState[..])[5 := MaskSet(old(remoteState[5]), c.modeMask, c.ModeCode(mode))]
      ensures Settings() == old(Settings()).(mode := k.common.ModeCode(mode))
    {
      var c := k.common;
      var newmode := c.ModeCode(mode);
      ghost var s := remoteState[..];
      remoteState[5] := MaskSet(remoteState[5], c.modeMask, newmode);
      WriteMode(k, s, mode);
    }

    /** `setSwingVertical`: a position above Off becomes Off, stored in the
        top three bits of byte 11. */
    method SetSwingV(pos: bv8)
      requires Valid()
      modifies remoteState
      ensures remoteState[..] == old(remoteState[..])[11 := MaskSet(old(remoteState[11]), k.swingVMask, k.SwingVCode(pos) << 5)]
      ensures Settings() == old(Settings()).(swingV := k.SwingVCode(pos))
    {
      var newpos := k.SwingVCode(pos);
      ghost var s := remoteState[..];
      remoteState[11] := MaskSet(remoteState[11], k.swingVMask, newpos << 5);
      WriteSwingV(k, s, pos);
    }

    /** `setSwingHorizontal`: a position above Off becomes Off, stored
        through the mask. */
    method SetSwingH(pos: bv8)
      requires Valid()
      modifies remoteState
      ensures remoteState[..] == old(remoteState[..])[13 := MaskSet(old(remoteState[13]), k.swingHMask,
                                                                     Pick(k.SwingHCode(pos), k.swingHMask))]
      ensures Settings() == old(Settings()).(swingH := Pick(k.SwingHCode(pos), k.swingHMask))
    {
      var newpos := k.SwingHCode(pos);
      ghost var s := remoteState[..];
      remoteState[13] := MaskSet(remoteState[13], k.swingHMask, Pick(newpos, k.swingHMask));
      WriteSwingH(k, s, pos);
    }

    method SetNight(on: bool)
      requires Valid()
      modifies remoteState
      ensures remoteState[..] == old(remoteState[..])[15 := WriteBit(old(remoteState[15]), k.nightBit, on)]
      ensures Settings() == old(Settings()).(night := on)
    {
      ghost var s := remoteState[..];
      remoteState[15] := WriteBit(remoteState[15], k.nightBit, on);
      WriteNight(k, s, on);
    }

    /** `set3D`: all the bits of the 3D mask set, or all cleared. */
    method Set3D(on: bool)
      requires Valid()
      modifies remoteState
      ensures remoteState[..] == old(remoteState[..])[11 := WriteBit(old(remoteState[11]), k.threeDMask, on)]
      ensures Settings() == old(Settings()).(threeD := on)
    {
      ghost var s := remoteState[..];
      remoteState[11] := WriteBit(remoteState[11], k.threeDMask, on);
      Write3D(k, s, on);
    }

    method SetSilent(on: bool)
      requires Valid()
      modifies remoteState
      ensures remoteState[..] == old(remoteState[..])[15 := WriteBit(old(remoteState[15]), k.silentBit, on)]
      ensures Settings() == old(Settings()).(silent := on)
    {
      ghost var s := remoteState[..];
      remoteState[15] := WriteBit(remoteState[15], k.silentBit, on);
      WriteSilent(k, s, on);
    }

    method SetFilter(on: bool)
      requires Valid()
      modifies remoteState
      ensures remoteState[..] == old(remoteState[..])[5 := WriteBit(old(remoteState[5]), k.filterBit, on)]
      ensures Settings() == old(Settings()).(filter := on)
    {
      ghost var s := remoteState[..];
      remoteState[5] := WriteBit(remoteState[5], k.filterBit, on);
      WriteFilter(k, s, on);
    }

    /** `setClean`: the filter bit and the clean bit together, so that
        `getClean` reads back what was set. */
    method SetClean(on: bool)
      requires Valid()
      modifies remoteState
      ensures Settings() == old(Settings()).(filter := on, cleanBit := on)
      ensures GetClean(k, remoteState[..]) == on
    {
      SetFilter(on);
      ghost var s := remoteState[..];
      remoteState[5] := WriteBit(remoteState[5], k.cleanBit, on);
      WriteCleanBit(k, s, on);
    }

    /** `setTurbo`: on sets the Turbo fan; off sets Auto only when the fan
        is at Turbo. */
    method SetTurbo(on: bool)
      requires Valid()
      modifies remoteState
      ensures Settings() == if on then old(Settings()).(fan := k.fanTurbo)
                            else if old(Settings()).fan == k.fanTurbo then old(Settings()).(fan := k.fanAuto)
                            else old(Settings())
    {
      if on {
        SetFan(k.fanTurbo);
      } else if GetTurbo(k, remoteState[..]) {
        SetFan(k.fanAuto);
      }
    }

    /** `setEcono`: on sets the Econo fan; off sets Auto only when the fan
        is at Econo. */
    method SetEcono(on: bool)
      requires Valid()
      modifies remoteState
      ensures Settings() == if on then old(Settings()).(fan := k.fanEcono)
                            else if old(Settings()).fan == k.fanEcono then old(Settings()).(fan := k.fanAuto)
                            else old(Settings())
    {
      if on {
        SetFan(k.fanEcono);
      } else if GetEcono(k, remoteState[..]) {
        SetFan(k.fanAuto);
      }
    }
  }
}

/** The `IRVestelAC` class: the 64-bit state word held in place, its
    checksum, raw access and the setters with their fallbacks
    (src/ir_Vestel.cpp:55-243).

    The state is a C union of the word and a bit-field structure whose
    layout is in a header that is not part of this model: the position and
    width of each member, the codes and the temperature limits are the
    parameters of a `VestelLayout`. The checksum byte is bits 12..19,
    where `validChecksum` reads it. */
module VestelAcState {
  import opened Bits
  import opened IrSignal
  import opened Vestel

  type int8 = x: int | -0x80 <= x < 0x80

  datatype VestelLayout = VestelLayout(
    timing: VestelTiming, crcMask: nat, acBits: uint16,
    power: Field, temp: Field, fan: Field, mode: Field, turboSleep: Field, ion: Field, swing: Field,
    minTemp: uint8, maxTemp: uint8,
    fanAuto: uint8, fanLow: uint8, fanMed: uint8, fanHigh: uint8, fanAutoCool: uint8, fanAutoHot: uint8,
    modeAuto: uint8, modeCool: uint8, modeHeat: uint8, modeDry: uint8, modeFan: uint8,
    sleep: nat, turbo: nat, normal: nat, ionOn: nat, swingOn: nat)
  {
    /** The members lie inside the word and do not overlap each other or
        the checksum byte, the checksum mask leaves the checksum byte out,
        and the codes fit their members. */
    predicate Valid() {
      FieldsValid() && FieldsApart() && SkipsCrc(crcMask) && TempRange() && CodesFit()
    }

    predicate FieldsValid() {
      power.Valid(64) && temp.Valid(64) && fan.Valid(64) && mode.Valid(64) && turboSleep.Valid(64) && ion.Valid(64) && swing.Valid(64)
    }

    predicate FieldsApart() {
      power.DisjointFrom(temp) && power.DisjointFrom(fan) && power.DisjointFrom(mode) &&
      power.DisjointFrom(turboSleep) && power.DisjointFrom(ion) && power.DisjointFrom(swing) &&
      temp.DisjointFrom(fan) && temp.DisjointFrom(mode) && temp.DisjointFrom(turboSleep) &&
      temp.DisjointFrom(ion) && temp.DisjointFrom(swing) && fan.DisjointFrom(mode) &&
      fan.DisjointFrom(turboSleep) && fan.DisjointFrom(ion) && fan.DisjointFrom(swing) &&
      mode.DisjointFrom(turboSleep) && mode.DisjointFrom(ion) && mode.DisjointFrom(swing) &&
      turboSleep.DisjointFrom(ion) && turboSleep.DisjointFrom(swing) && ion.DisjointFrom(swing) &&
      power.DisjointFrom(CrcField) && temp.DisjointFrom(CrcField) && fan.DisjointFrom(CrcField) && mode.DisjointFrom(CrcField) &&
      turboSleep.DisjointFrom(CrcField) && ion.DisjointFrom(CrcField) && swing.DisjointFrom(CrcField)
    }

    /** The stored temperature is the temperature minus 16, so the limits
        are at least 16 and their difference fits the member. */
    predicate TempRange() {
      16 <= minTemp <= maxTemp && maxTemp - 16 < temp.Limit()
    }

    /** Every code fits its member; the power codes 0xF and 0xC and the
        swing's off code 0xF too. The three values of the shared sleep and
        turbo member differ, and the on codes of ion and swing differ from
        their off codes. */
    predicate CodesFit() {
      0xF < power.Limit() &&
      fanAuto < fan.Limit() && fanLow < fan.Limit() && fanMed < fan.Limit() && fanHigh < fan.Limit() &&
      fanAutoCool < fan.Limit() && fanAutoHot < fan.Limit() &&
      modeAuto < mode.Limit() && modeCool < mode.Limit() && modeHeat < mode.Limit() &&
      modeDry < mode.Limit() && modeFan < mode.Limit() &&
      sleep < turboSleep.Limit() && turbo < turboSleep.Limit() && normal < turboSleep.Limit() &&
      sleep != turbo && normal != sleep && normal != turbo &&
      ionOn < ion.Limit() && ionOn != 0 &&
      swingOn < swing.Limit() && 0xF < swing.Limit() && swingOn != 0xF
    }

    /** `setTemp`'s clamping: first up to the minimum, then down to the
        maximum. */
    function ClampTemp(t: uint8): (r: uint8)
      ensures minTemp <= maxTemp ==> minTemp <= r <= maxTemp
      ensures minTemp <= t <= maxTemp ==> r == t
      ensures t < minTemp <= maxTemp ==> r == minTemp
      ensures t > maxTemp ==> r == maxTemp
    {
      var up := if minTemp > t then minTemp else t;
      if maxTemp < up then maxTemp else up
    }

    /** What `setTemp` assigns: the clamped temperature minus 16, which
        fits the member without truncation. */
    function TempCode(t: uint8): (r: nat)
      requires TempRange()
      ensures r < temp.Limit()
      ensures r + 16 == ClampTemp(t)
    {
      ClampTemp(t) - 16
    }

    /** The five speeds `setFan` keeps; any other becomes Auto. */
    predicate KnownFan(speed: uint8) {
      speed == fanLow || speed == fanMed || speed == fanHigh || speed == fanAutoCool || speed == fanAutoHot
    }

    function FanCode(speed: uint8): (r: uint8)
      ensures r == speed || r == fanAuto
      ensures KnownFan(speed) ==> r == speed
      ensures CodesFit() ==> r < fan.Limit()
    {
      if KnownFan(speed) then speed else fanAuto
    }

    /** The five modes `setMode` keeps; any other becomes Auto. */
    predicate KnownMode(m: uint8) {
      m == modeAuto || m == modeCool || m == modeHeat || m == modeDry || m == modeFan
    }

    function ModeCode(m: uint8): (r: uint8)
      ensures r == m || r == modeAuto
      ensures KnownMode(m) ==> r == m
      ensures CodesFit() ==> r < mode.Limit()
    {
      if KnownMode(m) then m else modeAuto
    }
  }

  /** `on` stores 0xF, `off` 0xC. */
  function PowerCode(on: bool): nat {
    if on then 0xF else 0xC
  }

  /** The temperature `setAuto` sets for each level. */
  function AutoTemp(level: int8): uint8
    requires -2 <= level <= 2
  {
    if level == 2 then 30
    else if level == 1 then 31
    else if level == 0 then 25
    else if level == -1 then 16
    else 17
  }

  /** The word `stateReset` puts in the state: power on, mode Auto, fan
      Auto, 25 degrees. */
  const ResetCode: nat := 0x0F00D9001FEF201

  /** A mask that covers only the twelve lowest bits leaves the checksum
      byte out. */
  lemma SkipsCrcBelow(m: nat)
    requires m < 4096
    ensures SkipsCrc(m)
  {
    GetFieldShiftMask(m, 64, CrcField);
    assert Pow2(12) == 4096 by { assert Pow2(4) == 16; Pow2Sum(4, 4); Pow2Sum(4, 8); }
  }

  /** The assumptions of `Valid()` can all hold together, so the contracts
      that require a valid layout speak about real states. The positions
      and codes below are only an instance: the header that fixes the
      real ones is not part of this model. */
  lemma SomeLayoutValid()
    ensures exists k: VestelLayout :: k.Valid()
  {
    var k := VestelLayout(
      VestelTiming(3110, 9066, 520, 1535, 480), 0xFFF, 56,
      Field(48, 4), Field(32, 4), Field(36, 4), Field(40, 3), Field(24, 4), Field(46, 1), Field(20, 4),
      16, 30,
      1, 5, 9, 0xB, 0xC, 0xD,
      0, 1, 4, 2, 3,
      3, 7, 1, 1, 0xA);
    assert Pow2(1) == 2 && Pow2(3) == 8 && Pow2(4) == 16;
    assert k.FieldsValid() && k.FieldsApart();
    assert k.TempRange();
    assert k.CodesFit();
    SkipsCrcBelow(k.crcMask);
    assert k.Valid();
  }

  // -------------------------------------------------------------------
  // The members and the getters

  /** The contents of every member of the bit-field structure. */
  datatype VestelSettings = VestelSettings(
    power: nat, temp: nat, fan: nat, mode: nat, turboSleep: nat, ion: nat, swing: nat)

  function SettingsOf(k: VestelLayout, x: nat): VestelSettings
    requires k.FieldsValid()
  {
    VestelSettings(GetField(x, 64, k.power), GetField(x, 64, k.temp), GetField(x, 64, k.fan),
                   GetField(x, 64, k.mode), GetField(x, 64, k.turboSleep), GetField(x, 64, k.ion),
                   GetField(x, 64, k.swing))
  }

  predicate GetPower(k: VestelLayout, x: nat)
    requires k.FieldsValid()
  {
    GetField(x, 64, k.power) == 0xF
  }

  /** `getTemp`: the member plus 16, as a `uint8_t`. */
  function GetTemp(k: VestelLayout, x: nat): uint8
    requires k.FieldsValid()
  {
    (GetField(x, 64, k.temp) + 16) % 256
  }

  function GetFan(k: VestelLayout, x: nat): nat
    requires k.FieldsValid()
  {
    GetField(x, 64, k.fan)
  }

  function GetMode(k: VestelLayout, x: nat): nat
    requires k.FieldsValid()
  {
    GetField(x, 64, k.mode)
  }

  predicate GetSleep(k: VestelLayout, x: nat)
    requires k.FieldsValid()
  {
    GetField(x, 64, k.turboSleep) == k.sleep
  }

  predicate GetTurbo(k: VestelLayout, x: nat)
    requires k.FieldsValid()
  {
    GetField(x, 64, k.turboSleep) == k.turbo
  }

  predicate GetIon(k: VestelLayout, x: nat)
    requires k.FieldsValid()
  {
    GetField(x, 64, k.ion) == k.ionOn
  }

  predicate GetSwing(k: VestelLayout, x: nat)
    requires k.FieldsValid()
  {
    GetField(x, 64, k.swing) == k.swingOn
  }

  // -------------------------------------------------------------------
  // Assigning one member

  /** Assigning the `power` member changes only its settings entry, to the
      value truncated to the member's width. */
  lemma WritePower(k: VestelLayout, x: nat, v: nat)
    requires k.Valid()
    ensures SettingsOf(k, SetField(x, 64, k.power, v)) == SettingsOf(k, x).(power := v % k.power.Limit())
  {
    GetSetField(x, 64, k.power, v);
    GetSetOtherField(x, 64, k.power, k.temp, v);
    GetSetOtherField(x, 64, k.power, k.fan, v);
    GetSetOtherField(x, 64, k.power, k.mode, v);
    GetSetOtherField(x, 64, k.power, k.turboSleep, v);
    GetSetOtherField(x, 64, k.power, k.ion, v);
    GetSetOtherField(x, 64, k.power, k.swing, v);
  }

  /** Assigning the `temp` member changes only its settings entry, to the
      value truncated to the member's width. */
  lemma WriteTemp(k: VestelLayout, x: nat, v: nat)
    requires k.Valid()
    ensures SettingsOf(k, SetField(x, 64, k.temp, v)) == SettingsOf(k, x).(temp := v % k.temp.Limit())
  {
    GetSetField(x, 64, k.temp, v);
    GetSetOtherField(x, 64, k.temp, k.power, v);
    GetSetOtherField(x, 64, k.temp, k.fan, v);
    GetSetOtherField(x, 64, k.temp, k.mode, v);
    GetSetOtherField(x, 64, k.temp, k.turboSleep, v);
    GetSetOtherField(x, 64, k.temp, k.ion, v);
    GetSetOtherField(x, 64, k.temp, k.swing, v);
  }

  /** Assigning the `fan` member changes only its settings entry, to the
      value truncated to the member's width. */
  lemma WriteFan(k: VestelLayout, x: nat, v: nat)
    requires k.Valid()
    ensures SettingsOf(k, SetField(x, 64, k.fan, v)) == SettingsOf(k, x).(fan := v % k.fan.Limit())
  {
    GetSetField(x, 64, k.fan, v);
    GetSetOtherField(x, 64, k.fan, k.power, v);
    GetSetOtherField(x, 64, k.fan, k.temp, v);
    GetSetOtherField(x, 64, k.fan, k.mode, v);
    GetSetOtherField(x, 64, k.fan, k.turboSleep, v);
    GetSetOtherField(x, 64, k.fan, k.ion, v);
    GetSetOtherField(x, 64, k.fan, k.swing, v);
  }

  /** Assigning the `mode` member changes only its settings entry, to the
      value truncated to the member's width. */
  lemma WriteMode(k: VestelLayout, x: nat, v: nat)
    requires k.Valid()
    ensures SettingsOf(k, SetField(x, 64, k.mode, v)) == SettingsOf(k, x).(mode := v % k.mode.Limit())
  {
    GetSetField(x, 64, k.mode, v);
    GetSetOtherField(x, 64, k.mode, k.power, v);
    GetSetOtherField(x, 64, k.mode, k.temp, v);
    GetSetOtherField(x, 64, k.mode, k.fan, v);
    GetSetOtherField(x, 64, k.mode, k.turboSleep, v);
    GetSetOtherField(x, 64, k.mode, k.ion, v);
    GetSetOtherField(x, 64, k.mode, k.swing, v);
  }

  /** Assigning the `turboSleep` member changes only its settings entry, to the
      value truncated to the member's width. */
  lemma WriteTurboSleep(k: VestelLayout, x: nat, v: nat)
    requires k.Valid()
    ensures SettingsOf(k, SetField(x, 64, k.turboSleep, v)) == SettingsOf(k, x).(turboSleep := v % k.turboSleep.Limit())
  {
    GetSetField(x, 64, k.turboSleep, v);
    GetSetOtherField(x, 64, k.turboSleep, k.power, v);
    GetSetOtherField(x, 64, k.turboSleep, k.temp, v);
    GetSetOtherField(x, 64, k.turboSleep, k.fan, v);
    GetSetOtherField(x, 64, k.turboSleep, k.mode, v);
    GetSetOtherField(x, 64, k.turboSleep, k.ion, v);
    GetSetOtherField(x, 64, k.turboSleep, k.swing, v);
  }

  /** Assigning the `ion` member changes only its settings entry, to the
      value truncated to the member's width. */
  lemma WriteIon(k: VestelLayout, x: nat, v: nat)
    requires k.Valid()
    ensures SettingsOf(k, SetField(x, 64, k.ion, v)) == SettingsOf(k, x).(ion := v % k.ion.Limit())
  {
    GetSetField(x, 64, k.ion, v);
    GetSetOtherField(x, 64, k.ion, k.power, v);
    GetSetOtherField(x, 64, k.ion, k.temp, v);
    GetSetOtherField(x, 64, k.ion, k.fan, v);
    GetSetOtherField(x, 64, k.ion, k.mode, v);
    GetSetOtherField(x, 64, k.ion, k.turboSleep, v);
    GetSetOtherField(x, 64, k.ion, k.swing, v);
  }

  /** Assigning the `swing` member changes only its settings entry, to the
      value truncated to the member's width. */
  lemma WriteSwing(k: VestelLayout, x: nat, v: nat)
    requires k.Valid()
    ensures SettingsOf(k, SetField(x, 64, k.swing, v)) == SettingsOf(k, x).(swing := v % k.swing.Limit())
  {
    GetSetField(x, 64, k.swing, v);
    GetSetOtherField(x, 64, k.swing, k.power, v);
    GetSetOtherField(x, 64, k.swing, k.temp, v);
    GetSetOtherField(x, 64, k.swing, k.fan, v);
    GetSetOtherField(x, 64, k.swing, k.mode, v);
    GetSetOtherField(x, 64, k.swing, k.turboSleep, v);
    GetSetOtherField(x, 64, k.swing, k.ion, v);
  }

  /** `checksum` writes only the checksum byte, which no member overlaps. */
  lemma WithCrcKeepsSettings(k: VestelLayout, x: nat)
    requires k.Valid()
    ensures SettingsOf(k, WithCrc(k.crcMask, x)) == SettingsOf(k, x)
  {
    var c := CrcOf(k.crcMask, x);
    GetSetOtherField(x, 64, CrcField, k.power, c);
    GetSetOtherField(x, 64, CrcField, k.temp, c);
    GetSetOtherField(x, 64, CrcField, k.fan, c);
    GetSetOtherField(x, 64, CrcField, k.mode, c);
    GetSetOtherField(x, 64, CrcField, k.turboSleep, c);
    GetSetOtherField(x, 64, CrcField, k.ion, c);
    GetSetOtherField(x, 64, CrcField, k.swing, c);
  }

  // -------------------------------------------------------------------
  // What the getters report after each setter

  /** `setPower`: `getPower` reports what was set. */
  lemma PowerReadBack(k: VestelLayout, x: nat, on: bool)
    requires k.Valid()
    ensures GetPower(k, SetField(x, 64, k.power, PowerCode(on))) == on
  {
    GetSetFieldFits(x, 64, k.power, PowerCode(on));
  }

  /** `setTemp`: `getTemp` reports the clamped temperature. */
  lemma TempReadBack(k: VestelLayout, x: nat, t: uint8)
    requires k.Valid()
    ensures GetTemp(k, SetField(x, 64, k.temp, k.TempCode(t))) == k.ClampTemp(t)
  {
    GetSetFieldFits(x, 64, k.temp, k.TempCode(t));
    SmallMod(k.ClampTemp(t), 256);
  }

  /** `setSleep` and `setTurbo` share one member: setting one on turns the
      other off, and setting either off leaves both off. */
  lemma SleepTurboReadBack(k: VestelLayout, x: nat, on: bool)
    requires k.Valid()
    ensures var s := SetField(x, 64, k.turboSleep, if on then k.sleep else k.normal);
            GetSleep(k, s) == on && !GetTurbo(k, s)
    ensures var s := SetField(x, 64, k.turboSleep, if on then k.turbo else k.normal);
            GetTurbo(k, s) == on && !GetSleep(k, s)
  {
    GetSetFieldFits(x, 64, k.turboSleep, if on then k.sleep else k.normal);
    GetSetFieldFits(x, 64, k.turboSleep, if on then k.turbo else k.normal);
  }

  /** `setIon` and `setSwing`: the getters report what was set. */
  lemma IonSwingReadBack(k: VestelLayout, x: nat, on: bool)
    requires k.Valid()
    ensures GetIon(k, SetField(x, 64, k.ion, if on then k.ionOn else 0)) == on
    ensures GetSwing(k, SetField(x, 64, k.swing, if on then k.swingOn else 0xF)) == on
  {
    GetSetFieldFits(x, 64, k.ion, if on then k.ionOn else 0);
    GetSetFieldFits(x, 64, k.swing, if on then k.swingOn else 0xF);
  }

  // -------------------------------------------------------------------
  // The class

  class VestelAc {
    const k: VestelLayout
    var rawCode: nat

    predicate Valid()
      reads this
    {
      k.Valid() && IsWord(rawCode)
    }

    /** The members of the current state. */
    function Settings(): VestelSettings
      requires Valid()
      reads this
    {
      SettingsOf(k, rawCode)
    }

    /** The class constructor: the state reset. */
    constructor (layout: VestelLayout)
      requires layout.Valid()
      ensures Valid() && k == layout && rawCode == ResetCode
    {
      k := layout;
      Pow2Of64();
      rawCode := ResetCode;
    }

    /** `stateReset`. */
    method StateReset()
      requires Valid()
      modifies this
      ensures Valid() && rawCode == ResetCode
    {
      Pow2Of64();
      rawCode := ResetCode;
    }

    /** `checksum`: the checksum byte set to `calcChecksum` of the word. */
    method Checksum()
      requires Valid()
      modifies this
      ensures Valid() && rawCode == WithCrc(k.crcMask, old(rawCode))
      ensures ValidChecksum(k.crcMask, rawCode)
      ensures Settings() == old(Settings())
    {
      var crc := CalcChecksum(k.crcMask, rawCode);
      WithCrcValid(k.crcMask, rawCode);
      WithCrcKeepsSettings(k, rawCode);
      rawCode := SetField(rawCode, 64, CrcField, crc);
    }

    /** `getRaw`: the word with its checksum recomputed in place. */
    method GetRaw() returns (r: nat)
      requires Valid()
      modifies this
      ensures Valid() && r == rawCode == WithCrc(k.crcMask, old(rawCode))
      ensures ValidChecksum(k.crcMask, r)
      ensures Settings() == old(Settings())
    {
      Checksum();
      r := rawCode;
    }

    /** `setRaw(const uint64_t)`. */
    method SetRawWord(newState: nat)
      requires Valid() && IsWord(newState)
      modifies this
      ensures Valid() && rawCode == newState
    {
      rawCode := newState;
    }

    /** `setRaw(uint8_t*)`: the first seven bytes, little-endian, with the
        top byte zero. */
    method SetRawBytes(newState: seq<uint8>)
      requires Valid() && |newState| >= 7
      modifies this
      ensures Valid() && rawCode == LittleEndian(newState[..7])
    {
      rawCode := AssembleWord(newState);
    }

    /** `send`: the word with its checksum recomputed, sent with the
        default bit count and no repeat. */
    method Send() returns (ps: seq<Pulse>)
      requires Valid()
      modifies this
      ensures Valid() && rawCode == WithCrc(k.crcMask, old(rawCode))
      ensures ps == SendVestelAc(k.timing, rawCode, k.acBits, 0)
    {
      Checksum();
      ps := SendVestelAc(k.timing, rawCode, k.acBits, 0);
    }

    /** `on`, `off` and `setPower`: the power member set to 0xF or 0xC. */
    method SetPower(on: bool)
      requires Valid()
      modifies this
      ensures Valid() && rawCode == SetField(old(rawCode), 64, k.power, PowerCode(on))
      ensures Settings() == old(Settings()).(power := PowerCode(on))
      ensures GetPower(k, rawCode) == on
    {
      WritePower(k, rawCode, PowerCode(on));
      SmallMod(PowerCode(on), k.power.Limit());
      PowerReadBack(k, rawCode, on);
      rawCode := SetField(rawCode, 64, k.power, PowerCode(on));
    }

    /** `setTemp`: the clamped temperature, less 16, assigned to its
        member. */
    method SetTemp(temp: uint8)
      requires Valid()
      modifies this
      ensures Valid() && rawCode == SetField(old(rawCode), 64, k.temp, k.TempCode(temp))
      ensures Settings() == old(Settings()).(temp := k.TempCode(temp))
      ensures GetTemp(k, rawCode) == k.ClampTemp(temp)
    {
      var v := k.TempCode(temp);
      WriteTemp(k, rawCode, v);
      SmallMod(v, k.temp.Limit());
      TempReadBack(k, rawCode, temp);
      rawCode := SetField(rawCode, 64, k.temp, v);
    }

    /** `setFan`: an unknown speed becomes Auto. */
    method SetFan(fan: uint8)
      requires Valid()
      modifies this
      ensures Valid() && rawCode == SetField(old(rawCode), 64, k.fan, k.FanCode(fan))
      ensures Settings() == old(Settings()).(fan := k.FanCode(fan))
    {
      var code := k.FanCode(fan);
      WriteFan(k, rawCode, code);
      SmallMod(code, k.fan.Limit());
      rawCode := SetField(rawCode, 64, k.fan, code);
    }

    /** `setMode`: an unknown mode becomes Auto. */
    method SetMode(mode: uint8)
      requires Valid()
      modifies this
      ensures Valid() && rawCode == SetField(old(rawCode), 64, k.mode, k.ModeCode(mode))
      ensures Settings() == old(Settings()).(mode := k.ModeCode(mode))
    {
      var code := k.ModeCode(mode);
      WriteMode(k, rawCode, code);
      SmallMod(code, k.mode.Limit());
      rawCode := SetField(rawCode, 64, k.mode, code);
    }

    /** `setAuto`: a level outside -2..2 changes nothing; else mode Auto,
        fan AutoCool below zero and AutoHot otherwise, and the level's
        temperature through `setTemp`. */
    method SetAuto(autoLevel: int8)
      requires Valid()
      modifies this
      ensures Valid()
      ensures autoLevel < -2 || autoLevel > 2 ==> rawCode == old(rawCode)
      ensures -2 <= autoLevel <= 2 ==>
              Settings() == old(Settings()).(mode := k.modeAuto,
                                             fan := if autoLevel < 0 then k.fanAutoCool else k.fanAutoHot,
                                             temp := k.TempCode(AutoTemp(autoLevel)))
      ensures -2 <= autoLevel <= 2 ==> GetTemp(k, rawCode) == k.ClampTemp(AutoTemp(autoLevel))
    {
      if autoLevel < -2 || autoLevel > 2 {
        return;
      }
      SetMode(k.modeAuto);
      SetFan(if autoLevel < 0 then k.fanAutoCool else k.fanAutoHot);
      SetTemp(AutoTemp(autoLevel));
    }

    /** `setSleep`: the shared member set to Sleep or Normal. */
    method SetSleep(on: bool)
      requires Valid()
      modifies this
      ensures Valid() && rawCode == SetField(old(rawCode), 64, k.turboSleep, if on then k.sleep else k.normal)
      ensures Settings() == old(Settings()).(turboSleep := if on then k.sleep else k.normal)
      ensures GetSleep(k, rawCode) == on && !GetTurbo(k, rawCode)
    {
      var code := if on then k.sleep else k.normal;
      WriteTurboSleep(k, rawCode, code);
      SleepTurboReadBack(k, rawCode, on);
      SmallMod(code, k.turboSleep.Limit());
      rawCode := SetField(rawCode, 64, k.turboSleep, code);
    }

    /** `setTurbo`: the shared member set to Turbo or Normal. */
    method SetTurbo(on: bool)
      requires Valid()
      modifies this
      ensures Valid() && rawCode == SetField(old(rawCode), 64, k.turboSleep, if on then k.turbo else k.normal)
      ensures Settings() == old(Settings()).(turboSleep := if on then k.turbo else k.normal)
      ensures GetTurbo(k, rawCode) == on && !GetSleep(k, rawCode)
    {
      var code := if on then k.turbo else k.normal;
      WriteTurboSleep(k, rawCode, code);
      SleepTurboReadBack(k, rawCode, on);
      SmallMod(code, k.turboSleep.Limit());
      rawCode := SetField(rawCode, 64, k.turboSleep, code);
    }

    /** `setIon`: the member set to the Ion code or 0. */
    method SetIon(on: bool)
      requires Valid()
      modifies this
      ensures Valid() && rawCode == SetField(old(rawCode), 64, k.ion, if on then k.ionOn else 0)
      ensures Settings() == old(Settings()).(ion := if on then k.ionOn else 0)
      ensures GetIon(k, rawCode) == on
    {
      var code := if on then k.ionOn else 0;
      WriteIon(k, rawCode, code);
      IonSwingReadBack(k, rawCode, on);
      SmallMod(code, k.ion.Limit());
      rawCode := SetField(rawCode, 64, k.ion, code);
    }

    /** `setSwing`: the member set to the Swing code or 0xF. */
    method SetSwing(on: bool)
      requires Valid()
      modifies this
      ensures Valid() && rawCode == SetField(old(rawCode), 64, k.swing, if on then k.swingOn else 0xF)
      ensures Settings() == old(Settings()).(swing := if on then k.swingOn else 0xF)
      ensures GetSwing(k, rawCode) == on
    {
      var code := if on then k.swingOn else 0xF;
      WriteSwing(k, rawCode, code);
      IonSwingReadBack(k, rawCode, on);
      SmallMod(code, k.swing.Limit());
      rawCode := SetField(rawCode, 64, k.swing, code);
    }
  }
}

/** The `IRCoronaAc` class: the 21-byte Corona state held in place, its
    clamping setters, its getters, the two timers and their mutual exclusion
    (src/ir_Corona.cpp:143-510).

    The header that fixes the bit fields, the value codes and the limits is
    not part of this model, so they are the parameters of a `CoronaLayout`;
    `CoronaLayout.Valid` states what the properties need of them. All the
    settings live in the two data bytes of section 0 (`D0` at index 3, `D1`
    at index 5); a timer lives in the data bytes of section 1 or 2. */
module CoronaAcState {
  import opened Bits
  import opened ByteFields
  import opened IrSignal
  import opened StdAc
  import opened Corona

  datatype CoronaLayout = CoronaLayout(
    labelBase: uint8, d0Base: uint8,
    // Fields of D1.
    temp: Field, power: Field, powerToggle: Field, mode: Field,
    // Fields of D0.
    fan: Field, econo: Field, swingV: Field,
    minTemp: uint8, maxTemp: uint8,
    modeCool: uint8, modeDry: uint8, modeFan: uint8, modeHeat: uint8,
    fanAuto: uint8, fanLow: uint8, fanMedium: uint8, fanHigh: uint8,
    timerOff: uint16, timerMax: uint16, unitsPerMin: nat,
    onTimerSection: nat, offTimerSection: nat)
  {
    /** The fields of one byte fit it and do not overlap; every code fits
        its field; the temperature range fits the temperature field; the
        timers sit in sections 1 and 2. */
    predicate Valid() {
      temp.Valid(8) && power.Valid(8) && powerToggle.Valid(8) && mode.Valid(8) &&
      power.width == 1 && powerToggle.width == 1 &&
      temp.DisjointFrom(power) && temp.DisjointFrom(powerToggle) && temp.DisjointFrom(mode) &&
      power.DisjointFrom(powerToggle) && power.DisjointFrom(mode) && powerToggle.DisjointFrom(mode) &&
      fan.Valid(8) && econo.Valid(8) && swingV.Valid(8) &&
      econo.width == 1 && swingV.width == 1 &&
      fan.DisjointFrom(econo) && fan.DisjointFrom(swingV) && econo.DisjointFrom(swingV) &&
      1 <= minTemp <= maxTemp && maxTemp - minTemp + 1 < temp.Limit() &&
      modeCool < mode.Limit() && modeDry < mode.Limit() && modeFan < mode.Limit() && modeHeat < mode.Limit() &&
      fanAuto <= fanHigh < fan.Limit() &&
      1 <= unitsPerMin &&
      onTimerSection in {1, 2} && offTimerSection in {1, 2} && onTimerSection != offTimerSection
    }

    /** A timer value never reaches the "off" code. */
    predicate TimersFit() {
      timerMax * unitsPerMin < timerOff
    }

    /** The four modes `setMode` accepts. */
    predicate KnownMode(m: nat) {
      m == modeCool || m == modeDry || m == modeFan || m == modeHeat
    }

    /** The minutes `_setTimer` stores as such; any other value turns the
        timer off. */
    predicate TimerInRange(mins: nat) {
      1 <= mins <= timerMax
    }
  }

  /** `setTemp`'s clamping of a requested temperature. */
  function ClampTemp(k: CoronaLayout, t: nat): (r: nat)
    ensures k.minTemp <= k.maxTemp ==> k.minTemp <= r <= k.maxTemp
    ensures k.minTemp <= t <= k.maxTemp ==> r == t
  {
    if t < k.minTemp then k.minTemp else if t > k.maxTemp then k.maxTemp else t
  }

  /** The two timer bytes `_setTimer` computes for a number of minutes:
      the high and the low byte of the 16-bit count of timer units. */
  function TimerUnits(k: CoronaLayout, mins: nat): (hsecs: uint16)
    ensures !k.TimerInRange(mins) ==> hsecs == k.timerOff
  {
    if k.TimerInRange(mins) then (mins * k.unitsPerMin) % 0x1_0000 else k.timerOff
  }

  /** `_getTimer` on a 16-bit count: 0 for "off", else whole minutes. */
  function TimerMinutes(k: CoronaLayout, hsecs: nat): nat
    requires k.unitsPerMin >= 1
  {
    if hsecs == k.timerOff then 0 else hsecs / k.unitsPerMin
  }

  /** A timer written and read back: the minutes it was set to when in
      range, and 0 otherwise. */
  lemma TimerRoundTrip(k: CoronaLayout, mins: nat)
    requires k.Valid() && k.TimersFit()
    ensures TimerMinutes(k, TimerUnits(k, mins)) == if k.TimerInRange(mins) then mins else 0
  {
    if k.TimerInRange(mins) {
      MulMono(k.unitsPerMin, mins, k.timerMax);
      assert mins * k.unitsPerMin < 0x1_0000;
      SmallMod(mins * k.unitsPerMin, 0x1_0000);
      DivModUnique(mins * k.unitsPerMin, k.unitsPerMin, mins, 0);
    }
  }

  /** The byte split of a 16-bit count and its recombination
      `d1 << 8 | d0` give the count back. */
  lemma TimerBytes(hsecs: uint16)
    ensures (hsecs / 256) * 256 + hsecs % 256 == hsecs && hsecs / 256 < 256
  {
  }

  // -------------------------------------------------------------------
  // The getters, read off a 21-byte state

  function GetPower(k: CoronaLayout, s: seq<uint8>): bool
    requires k.Valid() && |s| == StateLength
  {
    GetBits8(s[D1Pos], k.power) == 1
  }

  function GetPowerToggle(k: CoronaLayout, s: seq<uint8>): bool
    requires k.Valid() && |s| == StateLength
  {
    GetBits8(s[D1Pos], k.powerToggle) == 1
  }

  function GetMode(k: CoronaLayout, s: seq<uint8>): nat
    requires k.Valid() && |s| == StateLength
  {
    GetBits8(s[D1Pos], k.mode)
  }

  /** `getTemp`: the stored offset plus the minimum, less one, as a byte. */
  function GetTemp(k: CoronaLayout, s: seq<uint8>): nat
    requires k.Valid() && |s| == StateLength
  {
    TempOfField(k, GetBits8(s[D1Pos], k.temp))
  }

  /** The temperature a stored offset stands for: the offset plus the
      minimum, less one, as a byte. */
  function TempOfField(k: CoronaLayout, v: nat): (t: nat)
    ensures t < 256
    ensures 1 <= v && v + k.minTemp - 1 < 256 ==> t == v + k.minTemp - 1
  {
    (v + k.minTemp - 1) % 256
  }

  function GetFan(k: CoronaLayout, s: seq<uint8>): nat
    requires k.Valid() && |s| == StateLength
  {
    GetBits8(s[D0Pos], k.fan)
  }

  function GetEcono(k: CoronaLayout, s: seq<uint8>): bool
    requires k.Valid() && |s| == StateLength
  {
    GetBits8(s[D0Pos], k.econo) == 1
  }

  function GetSwingV(k: CoronaLayout, s: seq<uint8>): bool
    requires k.Valid() && |s| == StateLength
  {
    GetBits8(s[D0Pos], k.swingV) == 1
  }

  /** `_getTimer`: the data bytes of the timer's section as a 16-bit
      count, `D1` high and `D0` low, in minutes. */
  function GetTimer(k: CoronaLayout, s: seq<uint8>, section: nat): nat
    requires k.Valid() && |s| == StateLength && section < Sections
  {
    TimerMinutes(k, TimerCount(s, section))
  }

  /** The 16-bit count held in a timer section's data bytes. */
  function TimerCount(s: seq<uint8>, section: nat): nat
    requires |s| == StateLength && section < Sections
  {
    var pos := section * SectionBytes;
    (s[pos + D1Pos] as nat) * 256 + s[pos + D0Pos] as nat
  }

  /** Everything the getters report. */
  datatype CoronaSettings = CoronaSettings(
    power: bool, powerToggle: bool, mode: nat, temp: nat, fan: nat,
    econo: bool, swingV: bool, onTimer: nat, offTimer: nat)

  function SettingsOf(k: CoronaLayout, s: seq<uint8>): CoronaSettings
    requires k.Valid() && |s| == StateLength
  {
    CoronaSettings(GetPower(k, s), GetPowerToggle(k, s), GetMode(k, s), GetTemp(k, s), GetFan(k, s),
                   GetEcono(k, s), GetSwingV(k, s),
                   GetTimer(k, s, k.onTimerSection), GetTimer(k, s, k.offTimerSection))
  }

  /** The settings `stateReset` leaves: power and power toggle off (its
      data byte `D1` starts from zero), Cool at the minimum temperature, fan
      Auto, both timers off; economy and swing as the fixed `D0` byte has
      them. */
  function ResetSettings(k: CoronaLayout): CoronaSettings
    requires k.Valid()
  {
    CoronaSettings(false, false, k.modeCool, k.minTemp, k.fanAuto,
                   GetBits8(k.d0Base, k.econo) == 1, GetBits8(k.d0Base, k.swingV) == 1, 0, 0)
  }

  /** The checksum writes no data byte, so the settings read the same. */
  lemma KeepsSettings(k: CoronaLayout, s: seq<uint8>, t: seq<uint8>)
    requires k.Valid() && |s| == StateLength == |t|
    requires forall i :: 0 <= i < StateLength && !IsCheckByte(i) ==> t[i] == s[i]
    ensures SettingsOf(k, t) == SettingsOf(k, s)
  {
    assert !IsCheckByte(D0Pos) && !IsCheckByte(D1Pos);
    assert !IsCheckByte(10) && !IsCheckByte(12) && !IsCheckByte(17) && !IsCheckByte(19);
    assert t[D0Pos] == s[D0Pos] && t[D1Pos] == s[D1Pos];
    SameTimers(k, s, t);
  }

  /** A change confined to one timer section leaves every other setting
      alone. */
  lemma TimerKeepsSettings(k: CoronaLayout, s: seq<uint8>, t: seq<uint8>, section: nat)
    requires k.Valid() && |s| == StateLength == |t| && section in {k.onTimerSection, k.offTimerSection}
    requires forall i :: (0 <= i < StateLength && i != section * SectionBytes + D1Pos &&
                          i != section * SectionBytes + D0Pos) ==> t[i] == s[i]
    ensures section == k.onTimerSection ==>
            SettingsOf(k, t) == SettingsOf(k, s).(onTimer := GetTimer(k, t, section))
    ensures section == k.offTimerSection ==>
            SettingsOf(k, t) == SettingsOf(k, s).(offTimer := GetTimer(k, t, section))
  {
    var other := if section == k.onTimerSection then k.offTimerSection else k.onTimerSection;
    var q := other * SectionBytes;
    assert t[D0Pos] == s[D0Pos] && t[D1Pos] == s[D1Pos];
    assert t[q + D1Pos] == s[q + D1Pos] && t[q + D0Pos] == s[q + D0Pos];
    TimerKeepsSettingsAt(k, s, t, section, other);
  }

  /** The settings bytes and the other timer's bytes equal: only the
      timer of `section` can differ. */
  lemma TimerKeepsSettingsAt(k: CoronaLayout, s: seq<uint8>, t: seq<uint8>, section: nat, other: nat)
    requires k.Valid() && |s| == StateLength == |t|
    requires section in {k.onTimerSection, k.offTimerSection} && other in {k.onTimerSection, k.offTimerSection}
    requires section != other
    requires t[D0Pos] == s[D0Pos] && t[D1Pos] == s[D1Pos]
    requires t[other * SectionBytes + D1Pos] == s[other * SectionBytes + D1Pos]
    requires t[other * SectionBytes + D0Pos] == s[other * SectionBytes + D0Pos]
    ensures section == k.onTimerSection ==>
            SettingsOf(k, t) == SettingsOf(k, s).(onTimer := GetTimer(k, t, section))
    ensures section == k.offTimerSection ==>
            SettingsOf(k, t) == SettingsOf(k, s).(offTimer := GetTimer(k, t, section))
  {
    assert GetPower(k, t) == GetPower(k, s) && GetPowerToggle(k, t) == GetPowerToggle(k, s);
    assert GetMode(k, t) == GetMode(k, s) && GetTemp(k, t) == GetTemp(k, s);
    assert GetFan(k, t) == GetFan(k, s) && GetEcono(k, t) == GetEcono(k, s) && GetSwingV(k, t) == GetSwingV(k, s);
    assert TimerCount(t, other) == TimerCount(s, other);
  }

  /** Equal data bytes in the timer sections give equal timers. */
  lemma SameTimers(k: CoronaLayout, s: seq<uint8>, t: seq<uint8>)
    requires k.Valid() && |s| == StateLength == |t|
    requires t[10] == s[10] && t[12] == s[12] && t[17] == s[17] && t[19] == s[19]
    ensures GetTimer(k, t, k.onTimerSection) == GetTimer(k, s, k.onTimerSection)
    ensures GetTimer(k, t, k.offTimerSection) == GetTimer(k, s, k.offTimerSection)
  {
    assert TimerCount(t, 1) == TimerCount(s, 1) && TimerCount(t, 2) == TimerCount(s, 2);
  }

  /** What the settings read after `D1` is replaced by `b`. */
  lemma WithD1(k: CoronaLayout, s: seq<uint8>, b: uint8)
    requires k.Valid() && |s| == StateLength
    ensures SettingsOf(k, s[D1Pos := b]) ==
            SettingsOf(k, s).(power := GetBits8(b, k.power) == 1, powerToggle := GetBits8(b, k.powerToggle) == 1,
                              mode := GetBits8(b, k.mode), temp := TempOfField(k, GetBits8(b, k.temp)))
  {
    var t := s[D1Pos := b];
    SameTimers(k, s, t);
    assert t[D1Pos] == b && t[D0Pos] == s[D0Pos];
  }

  /** Writing one field of `D1` leaves the other fields of `D1` alone. */
  lemma D1Others(k: CoronaLayout, b: uint8, f: Field, v: nat)
    requires k.Valid() && f in {k.temp, k.power, k.powerToggle, k.mode}
    ensures f != k.temp ==> GetBits8(SetBits8(b, f, v), k.temp) == GetBits8(b, k.temp)
    ensures f != k.power ==> GetBits8(SetBits8(b, f, v), k.power) == GetBits8(b, k.power)
    ensures f != k.powerToggle ==> GetBits8(SetBits8(b, f, v), k.powerToggle) == GetBits8(b, k.powerToggle)
    ensures f != k.mode ==> GetBits8(SetBits8(b, f, v), k.mode) == GetBits8(b, k.mode)
  {
    if f != k.temp { GetSetOtherBits8(b, f, k.temp, v); }
    if f != k.power { GetSetOtherBits8(b, f, k.power, v); }
    if f != k.powerToggle { GetSetOtherBits8(b, f, k.powerToggle, v); }
    if f != k.mode { GetSetOtherBits8(b, f, k.mode, v); }
  }

  /** Writing one field of `D0` leaves the other fields of `D0` alone. */
  lemma D0Others(k: CoronaLayout, b: uint8, f: Field, v: nat)
    requires k.Valid() && f in {k.fan, k.econo, k.swingV}
    ensures f != k.fan ==> GetBits8(SetBits8(b, f, v), k.fan) == GetBits8(b, k.fan)
    ensures f != k.econo ==> GetBits8(SetBits8(b, f, v), k.econo) == GetBits8(b, k.econo)
    ensures f != k.swingV ==> GetBits8(SetBits8(b, f, v), k.swingV) == GetBits8(b, k.swingV)
  {
    if f != k.fan { GetSetOtherBits8(b, f, k.fan, v); }
    if f != k.econo { GetSetOtherBits8(b, f, k.econo, v); }
    if f != k.swingV { GetSetOtherBits8(b, f, k.swingV, v); }
  }

  /** What the settings read after `D0` is replaced by `b`. */
  lemma WithD0(k: CoronaLayout, s: seq<uint8>, b: uint8)
    requires k.Valid() && |s| == StateLength
    ensures SettingsOf(k, s[D0Pos := b]) ==
            SettingsOf(k, s).(fan := GetBits8(b, k.fan), econo := GetBits8(b, k.econo) == 1,
                              swingV := GetBits8(b, k.swingV) == 1)
  {
    var t := s[D0Pos := b];
    SameTimers(k, s, t);
    assert t[D0Pos] == b && t[D1Pos] == s[D1Pos];
  }

  /** The four fields of `D1` are four different fields. */
  lemma D1FieldsDistinct(k: CoronaLayout)
    requires k.Valid()
    ensures k.temp != k.power && k.temp != k.powerToggle && k.temp != k.mode
    ensures k.power != k.powerToggle && k.power != k.mode && k.powerToggle != k.mode
  {
  }

  /** Writing a value that fits one field of `D1` changes that setting
      alone. */
  lemma WriteD1(k: CoronaLayout, s: seq<uint8>, f: Field, v: nat)
    requires k.Valid() && |s| == StateLength && f in {k.temp, k.power, k.powerToggle, k.mode} && v < f.Limit()
    ensures var t := SettingsOf(k, s[D1Pos := SetBits8(s[D1Pos], f, v)]);
            var o := SettingsOf(k, s);
            t == o.(power := if f == k.power then v == 1 else o.power,
                    powerToggle := if f == k.powerToggle then v == 1 else o.powerToggle,
                    mode := if f == k.mode then v else o.mode,
                    temp := if f == k.temp then TempOfField(k, v) else o.temp)
  {
    D1FieldsDistinct(k);
    WithD1(k, s, SetBits8(s[D1Pos], f, v));
    GetSetBits8Fits(s[D1Pos], f, v);
    D1Others(k, s[D1Pos], f, v);
  }

  /** A clamped temperature, stored as its offset from the minimum plus
      one, reads back as itself. */
  lemma WriteTemp(k: CoronaLayout, s: seq<uint8>, temp: nat)
    requires k.Valid() && |s| == StateLength
    ensures SettingsOf(k, s[D1Pos := SetBits8(s[D1Pos], k.temp, ClampTemp(k, temp) - k.minTemp + 1)]) ==
            SettingsOf(k, s).(temp := ClampTemp(k, temp))
  {
    var degrees := ClampTemp(k, temp);
    var v := degrees - k.minTemp + 1;
    assert v < k.temp.Limit();
    WriteD1(k, s, k.temp, v);
    SmallMod(degrees, 256);
  }

  /** Writing a value that fits one field of `D0` changes that setting
      alone. */
  lemma WriteD0(k: CoronaLayout, s: seq<uint8>, f: Field, v: nat)
    requires k.Valid() && |s| == StateLength && f in {k.fan, k.econo, k.swingV} && v < f.Limit()
    ensures var t := SettingsOf(k, s[D0Pos := SetBits8(s[D0Pos], f, v)]);
            var o := SettingsOf(k, s);
            t == o.(fan := if f == k.fan then v else o.fan,
                    econo := if f == k.econo then v == 1 else o.econo,
                    swingV := if f == k.swingV then v == 1 else o.swingV)
  {
    WithD0(k, s, SetBits8(s[D0Pos], f, v));
    GetSetBits8Fits(s[D0Pos], f, v);
    D0Others(k, s[D0Pos], f, v);
  }

  // -------------------------------------------------------------------
  // The common A/C vocabulary

  /** `convertMode`: Fan, Dry and Heat have their own codes; every other
      mode is sent as Cool. */
  function ConvertMode(k: CoronaLayout, m: OpMode): (r: uint8)
    ensures k.KnownMode(r)
  {
    match m
    case Fan => k.modeFan
    case Dry => k.modeDry
    case Heat => k.modeHeat
    case _ => k.modeCool
  }

  /** `toCommonMode`: the inverse of `ConvertMode` on the four codes; any
      other code reads as Cool. */
  function ToCommonMode(k: CoronaLayout, code: nat): (r: OpMode)
    ensures r in {Fan, Dry, Heat, Cool}
  {
    if code == k.modeFan then Fan
    else if code == k.modeDry then Dry
    else if code == k.modeHeat then Heat
    else Cool
  }

  /** The four modes the remote has survive the trip through its codes;
      any other mode comes back as Cool. */
  lemma ModeRoundTrip(k: CoronaLayout, m: OpMode)
    requires k.modeFan != k.modeDry && k.modeFan != k.modeHeat && k.modeDry != k.modeHeat
    requires k.modeCool !in {k.modeFan, k.modeDry, k.modeHeat}
    ensures ToCommonMode(k, ConvertMode(k, m)) == if m in {Fan, Dry, Heat, Cool} then m else Cool
  {
  }

  /** A known code survives the trip through the common vocabulary. */
  lemma ModeCodeRoundTrip(k: CoronaLayout, code: nat)
    requires k.KnownMode(code)
    ensures ConvertMode(k, ToCommonMode(k, code)) == code
  {
  }

  /** `convertFan`: Min and Low share the low speed, High and Max the high
      one, and Auto (or anything else) is Auto. */
  function ConvertFan(k: CoronaLayout, s: FanSpeed): (r: uint8)
    ensures r in {k.fanAuto, k.fanLow, k.fanMedium, k.fanHigh}
  {
    match s
    case Min => k.fanLow
    case Low => k.fanLow
    case Medium => k.fanMedium
    case High => k.fanHigh
    case Max => k.fanHigh
    case AutoSpeed => k.fanAuto
  }

  /** `toCommonFanSpeed`: High, Medium and Low by their codes, Auto for any
      other code. */
  function ToCommonFanSpeed(k: CoronaLayout, code: nat): (r: FanSpeed)
    ensures r in {High, Medium, Low, AutoSpeed}
  {
    if code == k.fanHigh then High
    else if code == k.fanMedium then Medium
    else if code == k.fanLow then Low
    else AutoSpeed
  }

  /** With distinct codes, a speed comes back as itself, Min as Low and
      Max as High. */
  lemma FanRoundTrip(k: CoronaLayout, s: FanSpeed)
    requires k.fanHigh != k.fanMedium && k.fanHigh != k.fanLow && k.fanMedium != k.fanLow
    requires k.fanAuto !in {k.fanHigh, k.fanMedium, k.fanLow}
    ensures ToCommonFanSpeed(k, ConvertFan(k, s)) ==
            match s case Min => Low case Max => High case _ => s
  {
  }

  // -------------------------------------------------------------------
  // The class

  class CoronaAc {
    const k: CoronaLayout
    const remoteState: array<uint8>

    predicate Valid() {
      k.Valid() && k.TimersFit() && remoteState.Length == StateLength
    }

    /** What the getters report on the current state. */
    function Settings(): CoronaSettings
      requires Valid()
      reads remoteState
    {
      SettingsOf(k, remoteState[..])
    }

    /** The class constructor: a fresh state put in the reset state. */
    constructor (layout: CoronaLayout)
      requires layout.Valid() && layout.TimersFit()
      ensures Valid() && k == layout && fresh(remoteState)
      ensures AllSectionsValid(k.labelBase, remoteState[..])
      ensures Settings() == ResetSettings(k)
    {
      k := layout;
      remoteState := new uint8[StateLength](_ => 0);
      new;
      StateReset();
    }

    /** `stateReset`: fixed data bytes, minimum temperature, Cool, fan
        Auto, both timers off, and the checksum. */
    method StateReset()
      requires Valid()
      modifies remoteState
      ensures AllSectionsValid(k.labelBase, remoteState[..])
      ensures Settings() == ResetSettings(k)
    {
      remoteState[D0Pos] := k.d0Base;
      remoteState[D1Pos] := 0;
      ZeroBits8(k.power);
      ZeroBits8(k.powerToggle);
      SetTemp(k.minTemp);
      SetMode(k.modeCool);
      SetFan(k.fanAuto);
      TimerOffOutOfRange(k);
      SetOnTimer(k.timerOff);
      SetOffTimer(k.timerOff);
      ghost var s := remoteState[..];
      Checksum(k.labelBase, remoteState);
      ChecksummedKeepsData(k.labelBase, s);
      KeepsSettings(k, s, remoteState[..]);
      ChecksummedValid(k.labelBase, s);
    }

    /** `getRaw`: the state with its checksum recomputed in place. */
    method GetRaw() returns (r: seq<uint8>)
      requires Valid()
      modifies remoteState
      ensures r == remoteState[..] == Checksummed(k.labelBase, old(remoteState[..]))
      ensures AllSectionsValid(k.labelBase, r)
      ensures Settings() == old(Settings())
    {
      Checksum(k.labelBase, remoteState);
      ChecksummedValid(k.labelBase, old(remoteState[..]));
      ChecksummedKeepsData(k.labelBase, old(remoteState[..]));
      KeepsSettings(k, old(remoteState[..]), remoteState[..]);
      r := remoteState[..];
    }

    /** `setRaw`: the first `min(length, 21)` bytes of `newCode` copied into
        the state. */
    method SetRaw(newCode: seq<uint8>, length: uint16)
      requires Valid()
      requires |newCode| >= MinNat(length, StateLength)
      modifies remoteState
      ensures var n := MinNat(length, StateLength);
              remoteState[..] == newCode[..n] + old(remoteState[..])[n..]
    {
      var n := MinNat(length, StateLength);
      for i := 0 to n
        invariant forall j :: 0 <= j < i ==> remoteState[j] == newCode[j]
        invariant forall j :: i <= j < StateLength ==> remoteState[j] == old(remoteState[j])
      {
        remoteState[i] := newCode[i];
      }
      assert remoteState[..] == newCode[..n] + old(remoteState[..])[n..];
    }

    /** `send`: the checksummed state sent as a full message. */
    method Send(repeat: uint16) returns (ps: seq<Pulse>)
      requires Valid()
      requires repeat < 0xFFFF
      modifies remoteState
      ensures remoteState[..] == Checksummed(k.labelBase, old(remoteState[..]))
      ensures ps == CoronaAcPulses(remoteState[..], StateLength, repeat)
    {
      var raw := GetRaw();
      ps := SendCoronaAc(raw, StateLength, repeat);
    }

    /** `setTemp`: the temperature clamped to the range and stored as its
        offset from the minimum plus one; nothing else changes. */
    method SetTemp(temp: uint8)
      requires Valid()
      modifies remoteState
      ensures remoteState[..] ==
              old(remoteState[..])[D1Pos := SetBits8(old(remoteState[D1Pos]), k.temp,
                                                       ClampTemp(k, temp) - k.minTemp + 1)]
      ensures Settings() == old(Settings()).(temp := ClampTemp(k, temp))
    {
      var degrees := ClampTemp(k, temp);
      ghost var s := remoteState[..];
      remoteState[D1Pos] := SetBits8(remoteState[D1Pos], k.temp, degrees - k.minTemp + 1);
      assert remoteState[..] == s[D1Pos := SetBits8(s[D1Pos], k.temp, degrees - k.minTemp + 1)];
      WriteTemp(k, s, temp);
    }

    /** `setMode`: a known mode is stored; any other is replaced by Cool. */
    method SetMode(mode: uint8)
      requires Valid()
      modifies remoteState
      ensures var m := if k.KnownMode(mode) then mode else k.modeCool;
              remoteState[..] == old(remoteState[..])[D1Pos := SetBits8(old(remoteState[D1Pos]), k.mode, m)]
      ensures Settings() == old(Settings()).(mode := if k.KnownMode(mode) then mode else k.modeCool)
      decreases if k.KnownMode(mode) then 0 else 1
    {
      if k.KnownMode(mode) {
        ghost var s := remoteState[..];
        remoteState[D1Pos] := SetBits8(remoteState[D1Pos], k.mode, mode);
        assert remoteState[..] == s[D1Pos := SetBits8(s[D1Pos], k.mode, mode)];
        WriteD1(k, s, k.mode, mode);
      } else {
        SetMode(k.modeCool);
      }
    }

    /** `setFan`: a speed above High is replaced by Auto. */
    method SetFan(speed: uint8)
      requires Valid()
      modifies remoteState
      ensures var f := if speed > k.fanHigh then k.fanAuto else speed;
              remoteState[..] == old(remoteState[..])[D0Pos := SetBits8(old(remoteState[D0Pos]), k.fan, f)]
      ensures Settings() == old(Settings()).(fan := if speed > k.fanHigh then k.fanAuto else speed)
      decreases if speed > k.fanHigh then 1 else 0
    {
      if speed > k.fanHigh {
        SetFan(k.fanAuto);
      } else {
        ghost var s := remoteState[..];
        remoteState[D0Pos] := SetBits8(remoteState[D0Pos], k.fan, speed);
        assert remoteState[..] == s[D0Pos := SetBits8(s[D0Pos], k.fan, speed)];
        WriteD0(k, s, k.fan, speed);
      }
    }

    /** `setPowerToggle`. */
    method SetPowerToggle(toggle: bool)
      requires Valid()
      modifies remoteState
      ensures remoteState[..] == old(remoteState[..])[D1Pos := SetBit8(old(remoteState[D1Pos]),
                                                                         k.powerToggle.offset, toggle)]
      ensures Settings() == old(Settings()).(powerToggle := toggle)
    {
      ghost var s := remoteState[..];
      remoteState[D1Pos] := SetBit8(remoteState[D1Pos], k.powerToggle.offset, toggle);
      assert k.powerToggle == Field(k.powerToggle.offset, 1);
      assert remoteState[..] == s[D1Pos := SetBits8(s[D1Pos], k.powerToggle, if toggle then 1 else 0)];
      WriteD1(k, s, k.powerToggle, if toggle then 1 else 0);
    }

    /** `setEcono`. */
    method SetEcono(on: bool)
      requires Valid()
      modifies remoteState
      ensures remoteState[..] == old(remoteState[..])[D0Pos := SetBit8(old(remoteState[D0Pos]),
                                                                         k.econo.offset, on)]
      ensures Settings() == old(Settings()).(econo := on)
    {
      ghost var s := remoteState[..];
      remoteState[D0Pos] := SetBit8(remoteState[D0Pos], k.econo.offset, on);
      assert k.econo == Field(k.econo.offset, 1);
      assert remoteState[..] == s[D0Pos := SetBits8(s[D0Pos], k.econo, if on then 1 else 0)];
      WriteD0(k, s, k.econo, if on then 1 else 0);
    }

    /** `setSwingV`. */
    method SetSwingV(on: bool)
      requires Valid()
      modifies remoteState
      ensures remoteState[..] == old(remoteState[..])[D0Pos := SetBit8(old(remoteState[D0Pos]),
                                                                         k.swingV.offset, on)]
      ensures Settings() == old(Settings()).(swingV := on)
    {
      ghost var s := remoteState[..];
      remoteState[D0Pos] := SetBit8(remoteState[D0Pos], k.swingV.offset, on);
      assert k.swingV == Field(k.swingV.offset, 1);
      assert remoteState[..] == s[D0Pos := SetBits8(s[D0Pos], k.swingV, if on then 1 else 0)];
      WriteD0(k, s, k.swingV, if on then 1 else 0);
    }

    /** `setPower`: the power bit, and the timer that would have caused
        this power state is cleared (the on-timer when turning on, the
        off-timer when turning off). */
    method SetPower(on: bool)
      requires Valid()
      modifies remoteState
      ensures Settings() == if on then old(Settings()).(power := true, onTimer := 0)
                            else old(Settings()).(power := false, offTimer := 0)
    {
      ghost var s := remoteState[..];
      remoteState[D1Pos] := SetBit8(remoteState[D1Pos], k.power.offset, on);
      assert k.power == Field(k.power.offset, 1);
      assert remoteState[..] == s[D1Pos := SetBits8(s[D1Pos], k.power, if on then 1 else 0)];
      WriteD1(k, s, k.power, if on then 1 else 0);
      TimerOffOutOfRange(k);
      if on {
        SetOnTimer(k.timerOff);
      } else {
        SetOffTimer(k.timerOff);
      }
    }

    /** `on`. */
    method On()
      requires Valid()
      modifies remoteState
      ensures Settings() == old(Settings()).(power := true, onTimer := 0)
    {
      SetPower(true);
    }

    /** `off`. */
    method Off()
      requires Valid()
      modifies remoteState
      ensures Settings() == old(Settings()).(power := false, offTimer := 0)
    {
      SetPower(false);
    }

    /** `_setTimer`: the count of timer units for the minutes, or "off" when
        they are out of range, in the data bytes of the section. */
    method SetTimer(section: nat, mins: uint16)
      requires Valid() && section in {1, 2}
      modifies remoteState
      ensures var pos := section * SectionBytes;
              var hsecs := TimerUnits(k, mins);
              remoteState[..] == old(remoteState[..])[pos + D1Pos := hsecs / 256][pos + D0Pos := hsecs % 256]
      ensures GetTimer(k, remoteState[..], section) == if k.TimerInRange(mins) then mins else 0
    {
      var hsecs := TimerUnits(k, mins);
      var pos := section * SectionBytes;
      TimerBytes(hsecs);
      remoteState[pos + D1Pos] := hsecs / 256;
      remoteState[pos + D0Pos] := hsecs % 256;
      TimerRoundTrip(k, mins);
    }

    /** `setOnTimer`: a timer that ends up set clears the off-timer. */
    method SetOnTimer(mins: uint16)
      requires Valid()
      modifies remoteState
      ensures Settings() == old(Settings()).(onTimer := if k.TimerInRange(mins) then mins else 0,
                                             offTimer := if k.TimerInRange(mins) then 0 else old(Settings()).offTimer)
      decreases if k.TimerInRange(mins) then 1 else 0
    {
      SetTimer(k.onTimerSection, mins);
      TimerKeepsSettings(k, old(remoteState[..]), remoteState[..], k.onTimerSection);
      if GetTimer(k, remoteState[..], k.onTimerSection) != 0 {
        TimerOffOutOfRange(k);
        SetOffTimer(k.timerOff);
      }
    }

    /** `setOffTimer`: a timer that ends up set clears the on-timer. */
    method SetOffTimer(mins: uint16)
      requires Valid()
      modifies remoteState
      ensures Settings() == old(Settings()).(offTimer := if k.TimerInRange(mins) then mins else 0,
                                             onTimer := if k.TimerInRange(mins) then 0 else old(Settings()).onTimer)
      decreases if k.TimerInRange(mins) then 1 else 0
    {
      SetTimer(k.offTimerSection, mins);
      TimerKeepsSettings(k, old(remoteState[..]), remoteState[..], k.offTimerSection);
      if GetTimer(k, remoteState[..], k.offTimerSection) != 0 {
        TimerOffOutOfRange(k);
        SetOnTimer(k.timerOff);
      }
    }
  }

  /** The "off" code is itself out of range, so setting a timer to it
      turns the timer off. */
  lemma TimerOffOutOfRange(k: CoronaLayout)
    requires k.Valid() && k.TimersFit()
    ensures !k.TimerInRange(k.timerOff)
  {
    MulMono(k.timerMax, 1, k.unitsPerMin);
  }

  function MinNat(a: nat, b: nat): nat { if a < b then a else b }
}

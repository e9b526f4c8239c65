# IRremoteESP8266 protocol core in Dafny

This project models five infrared remote-control protocol modules of the
IRremoteESP8266 library and proves properties of them:

- **Corona A/C**
  - A 21-byte state sent as three 7-byte sections, each its own frame.
  - Every section is `0x28 0x61 Label D0 ~D0 D1 ~D1`.
  - A short message is a single section carrying the label of "section 3".
  - Modelled: the `IRCoronaAc` class with its clamping setters, its timers and their mutual exclusion, plus the sender and the decoder.
- **Mitsubishi Heavy 88/152**
  - The 11-byte (ZJ-S) and 19-byte (ZM-S) states.
  - Their byte signatures and the complement byte pairs that stand in for a checksum.
  - Modelled: both A/C classes with their fallback setters, the guarded senders, and the byte-at-a-time decoder with its strict compliance checks.
- **Vestel A/C**
  - A 64-bit state word with a population-count checksum in bits 12..19.
  - Modelled: the little-endian assembly of the word from bytes, the `IRVestelAC` setters (including `setAuto`), the sender guard and the decoder.
- **MilesTag2**
  - A laser-tag protocol: a header mark, then each bit as a fixed space and a mark whose length carries the bit, most significant bit first, then a fixed gap.
  - Each message is repeated `repeat + 1` times.
  - Modelled: the sender and the decoder.
- **Pioneer**
  - A 64-bit word sent as two NEC codes (the high and the low 32 bits).
  - A data-less separator sits between the codes.
  - A repeat frame follows only when `repeat > 0`.
  - The NEC timings are tick multiples.

How each part is written:

- **Signals.** A signal is a `seq<Pulse>` of `Mark(us)` and `Space(us)`.
- **The generic frame sender and matcher.** The library's `sendGeneric`, `matchGeneric` and `matchData` are not part of this model. The `IrSignal` module holds their specification as the protocols use them.
  - A frame is: header mark and space, two pulses per data bit, the footer mark, then a trailing gap stretched to a minimum message time.
  - A pulse of zero length is not sent.
  - Matching is a `Matcher`: three predicates that accept a measured duration for a mark, for a space, and for "at least".
  - Round-trip lemmas assume only that it accepts exact durations (`Exact`) and does not take a zero bit for a one bit (`Separates`).
- **Mutable state.** State the source keeps in place is a field of a class, and every setter is a method that states the new state.
  - Corona and Mitsubishi Heavy keep an `array` of bytes; Vestel keeps a 64-bit word.
  - Each state has a function `Settings()` that gives what the getters read, and every method also states its effect on it.
  - Loops in the source are `while` loops. Each is proved against a function that specifies it:
    - the Corona and Mitsubishi Heavy checksums;
    - the Heavy signature check and pair check;
    - the Vestel population count;
    - the little-endian assembly;
    - the MilesTag2 send and decode loops;
    - the Corona and Mitsubishi Heavy decode loops.
- **Header constants.** Constants defined in headers that are not part of this model are parameters of per-protocol layout datatypes (`CoronaLayout`, `VestelLayout`, `HeavyConsts`, `HeavyCommon`, `Heavy88Layout`, `Heavy152Layout`). This covers bit positions, masks, value codes, temperature limits, the Vestel timings and checksum mask, the Mitsubishi Heavy signatures and gap, and the Corona label base.
  - The `Valid()` predicate of each layout states what the proofs need of those constants: fields that fit and do not overlap, and codes that fit their fields.
  - The constants whose values are defined in the source files are used as written: the Corona timings and overheads, the MilesTag2 timings, the Pioneer ticks and the Mitsubishi Heavy timings.
  - A few header constants are fixed to values inferred from the source rather than made parameters: the Corona section size, section count, state length, bit counts, section prefix and byte positions, and the two Mitsubishi Heavy state lengths. "## Left out" says where each value comes from.

## Model

| member | source | states |
|---|---|---|
| Corona.SectionByteBits | src/ir_Corona.cpp:170-178 | a section label keeps the base's low nibble and has `0b11 << section` in bits 4..7; the short-message label (section 3 and above) is the base with bits 4 and 7 set |
| Corona.SectionLabels | src/ir_Corona.cpp:40-43 | with a base whose low nibble is 0xD, the three section labels are 0x3D, 0x6D and 0xCD, as in the example message |
| Corona.SealSection | src/ir_Corona.cpp:242-254 | sealing one section changes no byte outside it and keeps its two data bytes |
| Corona.ValidSectionIffSealed | src/ir_Corona.cpp:186-238 | `validSection` accepts a section exactly when the position is `(section % 3) * 7` and sealing the section with its label changes nothing (prefix 0x28 0x61, label, both complements) |
| Corona.Checksum | src/ir_Corona.cpp:242-254 | the in-place loop over the three sections leaves the array equal to the checksummed state |
| Corona.ChecksummedValid | src/ir_Corona.cpp:242-254 | after `checksum` every one of the three sections is valid |
| Corona.ChecksummedKeepsData | src/ir_Corona.cpp:242-254 | `checksum` leaves every byte that is not a prefix, label or complement byte unchanged (the six data bytes D0 and D1) |
| Corona.ChecksumIdempotent | src/ir_Corona.cpp:242-254 | applying `checksum` twice is the same as applying it once |
| Corona.ValidIffChecksummed | src/ir_Corona.cpp:186-238 | all three sections are valid if and only if `checksum` leaves the state unchanged |
| Corona.CoronaAcPulses | src/ir_Corona.cpp:49-75 | for `repeat < 0xFFFF`: nothing is sent for `nbytes < 7` or `7 < nbytes < 21`; otherwise `repeat + 1` rounds of 1 (for 7 bytes) or 3 section frames of 116 pulses each |
| Corona.SendCoronaAc | src/ir_Corona.cpp:49-75 | the nested repeat and section loops, with a 16-bit round counter and a stop once `pos >= nbytes`, emit exactly `CoronaAcPulses` |
| Corona.CoronaSectionMatch | src/ir_Corona.cpp:108-115 | each section match reads exactly 7 bytes when it succeeds |
| Corona.DecodeSections | src/ir_Corona.cpp:106-125 | the section loop returns between 7 and 21 bytes, a whole number of sections, and stops early only when the capture is used up |
| Corona.DecodeSectionsStep | src/ir_Corona.cpp:106-125 | one loop step: a failed strict `validSection` (section number 3 for a short capture) rejects, an exhausted capture stops, otherwise the next section is read |
| Corona.DecodeSectionsValid | src/ir_Corona.cpp:117-119 | in strict mode every section the loop returns passed `validSection`, under its own number in a long capture and as section 3 in a short one |
| Corona.CoronaAcDecodingWith | src/ir_Corona.cpp:87-140 | a decode succeeds only for a capture of at least `2*nbits + overhead - offset` entries, reports `bits = pos * 8` for 1, 2 or 3 sections, and in strict mode only for nbits and bits in {168, 56} |
| Corona.StrictDecodingValid | src/ir_Corona.cpp:89-131 | a strict decode returns only valid sections, and a short capture gives exactly one section |
| Corona.DecodeCoronaAc | src/ir_Corona.cpp:87-140 | the decoder with its section loop and `break` computes `CoronaAcDecodingWith` |
| Corona.ReadSections | src/ir_Corona.cpp:106-125 | the section loop alone computes `DecodeSections` from section 0 |
| Corona.SectionFrameDecodes | src/ir_Corona.cpp:108-115 | a section frame as the sender emits it is matched back to its 7 bytes, using 116 entries |
| Corona.DecodesFullMessage | src/ir_Corona.cpp:49-140 | decoding a captured 21-byte send returns the 21 bytes with 168 bits; in strict mode this needs all sections valid |
| Corona.DecodesShortMessage | src/ir_Corona.cpp:49-140 | decoding a captured 7-byte send returns the 7 bytes with 56 bits; in strict mode this needs the section valid as section 3 |
| CoronaAcState.ClampTemp | src/ir_Corona.cpp:279-284 | the clamped temperature lies in [min, max] and equals the input when that is already in range |
| CoronaAcState.TimerUnits | src/ir_Corona.cpp:455-464 | minutes outside 1..timerMax store the "off" code |
| CoronaAcState.TimerRoundTrip | src/ir_Corona.cpp:455-478 | `_getTimer` after `_setTimer` gives the minutes set when they are in range, and 0 otherwise |
| CoronaAcState.TimerOffOutOfRange | src/ir_Corona.cpp:455-464 | the "off" code is not itself an in-range number of minutes |
| CoronaAcState.TempOfField | src/ir_Corona.cpp:288-291 | `getTemp` adds min − 1 to the stored field, in 8-bit arithmetic |
| CoronaAcState.KeepsSettings | src/ir_Corona.cpp:242-254 | a state changed only in checksum bytes reads back the same settings |
| CoronaAcState.TimerKeepsSettings | src/ir_Corona.cpp:455-464 | writing a timer's two bytes changes that timer's reading and no other setting |
| CoronaAcState.SameTimers | src/ir_Corona.cpp:469-478 | the timers read only bytes 10, 12, 17 and 19 |
| CoronaAcState.WithD1 | src/ir_Corona.cpp:288-339 | the power, power-toggle, mode and temperature readings come from `D1`, and nothing else does |
| CoronaAcState.WithD0 | src/ir_Corona.cpp:384-449 | the fan, economy and swing readings come from `D0`, and nothing else does |
| CoronaAcState.WriteD1 | src/ir_Corona.cpp:297-356 | writing one field of `D1` changes exactly the matching setting |
| CoronaAcState.WriteTemp | src/ir_Corona.cpp:279-291 | `setTemp` followed by `getTemp` gives the clamped temperature, and no other setting changes |
| CoronaAcState.WriteD0 | src/ir_Corona.cpp:391-442 | writing one field of `D0` changes exactly the matching setting |
| CoronaAcState.ConvertMode | src/ir_Corona.cpp:361-368 | every common mode maps to one of the four known mode codes |
| CoronaAcState.ToCommonMode | src/ir_Corona.cpp:373-380 | every code maps to Fan, Dry, Heat or Cool |
| CoronaAcState.ModeRoundTrip | src/ir_Corona.cpp:361-380 | converting a common mode there and back gives it back for Fan, Dry, Heat and Cool, and gives Cool otherwise |
| CoronaAcState.ModeCodeRoundTrip | src/ir_Corona.cpp:361-380 | converting a known mode code there and back gives the code |
| CoronaAcState.ConvertFan | src/ir_Corona.cpp:414-423 | every common fan speed maps to Auto, Low, Medium or High |
| CoronaAcState.ToCommonFanSpeed | src/ir_Corona.cpp:426-433 | every code maps to High, Medium, Low or Auto |
| CoronaAcState.FanRoundTrip | src/ir_Corona.cpp:414-433 | a fan speed converted there and back is unchanged, except that Min becomes Low and Max becomes High |
| CoronaAcState.CoronaAc.constructor | src/ir_Corona.cpp:148-150 | a new object holds the reset state |
| CoronaAcState.CoronaAc.StateReset | src/ir_Corona.cpp:154-164 | after a reset all sections are valid and the settings are: power and power toggle off, Cool, minimum temperature, fan Auto, both timers off, economy and swing as the fixed `D0` byte has them |
| CoronaAcState.CoronaAc.GetRaw | src/ir_Corona.cpp:266-269 | `getRaw` checksums the state in place and returns it; its sections are valid and its settings unchanged |
| CoronaAcState.CoronaAc.SetRaw | src/ir_Corona.cpp:273-275 | `setRaw` copies `min(length, 21)` bytes and keeps the rest |
| CoronaAcState.CoronaAc.Send | src/ir_Corona.cpp:259-261 | `send` checksums the state and sends all 21 bytes |
| CoronaAcState.CoronaAc.SetTemp | src/ir_Corona.cpp:279-284 | `setTemp` writes only the temperature field of `D1`, and the temperature then reads as the clamped value |
| CoronaAcState.CoronaAc.SetMode | src/ir_Corona.cpp:343-356 | an unknown mode is stored as Cool; only the mode changes |
| CoronaAcState.CoronaAc.SetFan | src/ir_Corona.cpp:391-397 | a speed above High is stored as Auto; only the fan changes |
| CoronaAcState.CoronaAc.SetPowerToggle | src/ir_Corona.cpp:316-319 | only the power-toggle bit changes |
| CoronaAcState.CoronaAc.SetEcono | src/ir_Corona.cpp:401-404 | only the economy bit changes |
| CoronaAcState.CoronaAc.SetSwingV | src/ir_Corona.cpp:439-442 | only the swing bit changes |
| CoronaAcState.CoronaAc.SetPower | src/ir_Corona.cpp:297-304 | power on clears the on-timer and power off clears the off-timer; nothing else changes |
| CoronaAcState.CoronaAc.On | src/ir_Corona.cpp:329 | power on, with the on-timer cleared |
| CoronaAcState.CoronaAc.Off | src/ir_Corona.cpp:332 | power off, with the off-timer cleared |
| CoronaAcState.CoronaAc.SetTimer | src/ir_Corona.cpp:455-464 | writes the two timer bytes of the section; that timer then reads the minutes set, or 0 when out of range |
| CoronaAcState.CoronaAc.SetOnTimer | src/ir_Corona.cpp:489-494 | the on-timer reads the minutes set and the off-timer is cleared, or, out of range, the on-timer is off and the off-timer is kept |
| CoronaAcState.CoronaAc.SetOffTimer | src/ir_Corona.cpp:505-510 | the off-timer reads the minutes set and the on-timer is cleared, or, out of range, the off-timer is off and the on-timer is kept |
| MitsubishiHeavy.BytesConversion | src/ir_MitsubishiHeavy.cpp:818-831 | state bytes handed to the sender and read back by the decoder are unchanged |
| MitsubishiHeavy.ChecksumPairs | src/ir_MitsubishiHeavy.cpp:283-289 | the in-place loop from `sigLength - 2` in steps of 2 leaves the array equal to `Paired`: each inverse byte is the complement of the byte before it |
| MitsubishiHeavy.ValidChecksum | src/ir_MitsubishiHeavy.cpp:292-304 | the loop is true for lengths below the signature length, and otherwise exactly when every pair XORs to 0xFF |
| MitsubishiHeavy.PairedValid | src/ir_MitsubishiHeavy.cpp:283-304 | after `checksum` the pairs are valid |
| MitsubishiHeavy.PairedIdempotent | src/ir_MitsubishiHeavy.cpp:283-289 | `checksum` is idempotent and changes only the indices `sigLength - 1, sigLength + 1, ...` (the even indices 4, 6, ..., 18 for the five-byte signature) |
| MitsubishiHeavy.ValidIffPaired | src/ir_MitsubishiHeavy.cpp:283-304 | the pairs are valid if and only if `checksum` leaves the state unchanged |
| MitsubishiHeavy.CheckSignature | src/ir_MitsubishiHeavy.cpp:276-280 | the scan is true exactly when the state begins with the signature (`checkZmsSig`, and `checkZjsSig` at lines 634-638) |
| MitsubishiHeavy.SendMitsubishiHeavy88 | src/ir_MitsubishiHeavy.cpp:46-56 | nothing is sent below 11 bytes; otherwise exactly the generic byte frame of the first `nbytes` bytes (the one `DecodesSentState` decodes), `repeat + 1` frames of `16 * nbytes + 3` pulses, plus the gap when it is not zero |
| MitsubishiHeavy.SendMitsubishiHeavy152 | src/ir_MitsubishiHeavy.cpp:66-72 | nothing is sent below 19 bytes; otherwise the same frames as the 88-bit sender |
| MitsubishiHeavy.ReadBytes | src/ir_MitsubishiHeavy.cpp:818-831 | the byte loop returns whole bytes and never fewer bits than it began with |
| MitsubishiHeavy.ReadBytesStep | src/ir_MitsubishiHeavy.cpp:818-831 | one loop step: a byte matched with 16 entries is appended and reading continues |
| MitsubishiHeavy.MatchByte | src/ir_MitsubishiHeavy.cpp:818-831 | a byte sent least significant bit first is matched back to itself, using 16 entries |
| MitsubishiHeavy.Compliance | src/ir_MitsubishiHeavy.cpp:838-856 | accepts only 88 or 152 bits read; in strict mode only as many as asked for, with the model's signature and valid pairs |
| MitsubishiHeavy.HeavyDecoding | src/ir_MitsubishiHeavy.cpp:793-864 | a decode needs at least `2*nbits + kHeader + kFooter - 1` entries and reads at least `nbits` bits; strict mode accepts only 88 or 152 bits with the matching signature and valid pairs |
| MitsubishiHeavy.AfterData | src/ir_MitsubishiHeavy.cpp:832-856 | after the footer mark and the optional gap, the result is that of the compliance checks |
| MitsubishiHeavy.DecodeMitsubishiHeavy | src/ir_MitsubishiHeavy.cpp:793-864 | the decoder computes `HeavyDecoding` |
| MitsubishiHeavy.DecodeData | src/ir_MitsubishiHeavy.cpp:818-831 | the byte loop bounded by `rawlen - 16` computes `ReadBytes` |
| MitsubishiHeavy.DecodeAfterData | src/ir_MitsubishiHeavy.cpp:832-856 | the footer and compliance part of the decoder computes `AfterData` |
| MitsubishiHeavy.CheckCompliance | src/ir_MitsubishiHeavy.cpp:838-856 | the compliance switch computes `Compliance` |
| MitsubishiHeavy.ComplianceOfState | src/ir_MitsubishiHeavy.cpp:838-856 | a state of 11 or 19 bytes passes the compliance checks at its own size, in strict mode when its signature and pairs are right |
| MitsubishiHeavy.DecodingAfterHeader | src/ir_MitsubishiHeavy.cpp:796-831 | once the length, the strict size, the header and the byte loop pass, the decode is what follows the data |
| MitsubishiHeavy.AfterDataOfFooter | src/ir_MitsubishiHeavy.cpp:833-836 | a matched footer mark and gap leave the result to the compliance checks |
| MitsubishiHeavy.DecodesMatchedFrame | src/ir_MitsubishiHeavy.cpp:793-864 | a capture whose header, bytes, footer and gap match decodes to those bytes with their model and size |
| MitsubishiHeavy.DecodesSentState | src/ir_MitsubishiHeavy.cpp:46-864 | decoding a captured send of an 11- or 19-byte state returns that state with its model and bit count; in strict mode this needs the signature and valid pairs |
| MitsubishiHeavyLayout.HeavyCommon.ModeCode | src/ir_MitsubishiHeavy.cpp:160-173 | a mode other than Cool, Dry, Fan and Heat becomes Auto, and the code fits the mode field |
| MitsubishiHeavyLayout.HeavyCommon.ClampTemp | src/ir_MitsubishiHeavy.cpp:125-132 | the temperature is clamped to [min, max] and kept when already in range |
| MitsubishiHeavy152Ac.Heavy152Layout.FanCode | src/ir_MitsubishiHeavy.cpp:139-154 | an unknown fan speed becomes Auto (the 152-bit class) |
| MitsubishiHeavy152Ac.Heavy152Layout.SwingVCode | src/ir_MitsubishiHeavy.cpp:179-183 | the vertical swing is `min(pos, SwingVOff)` |
| MitsubishiHeavy152Ac.Heavy152Layout.SwingHCode | src/ir_MitsubishiHeavy.cpp:189-193 | the horizontal swing is `min(pos, SwingHOff)` |
| MitsubishiHeavy152Ac.SameData | src/ir_MitsubishiHeavy.cpp:121-273 | the 152-bit getters read only bytes 5, 7, 9, 11, 13 and 15 |
| MitsubishiHeavy152Ac.WritePower | src/ir_MitsubishiHeavy.cpp:106-123 | `on` and `off` change the power reading only |
| MitsubishiHeavy152Ac.WriteFilter | src/ir_MitsubishiHeavy.cpp:232-241 | only the filter reading changes |
| MitsubishiHeavy152Ac.WriteCleanBit | src/ir_MitsubishiHeavy.cpp:243-253 | only the clean bit changes |
| MitsubishiHeavy152Ac.WriteMode | src/ir_MitsubishiHeavy.cpp:160-177 | `setMode` then `getMode` gives the mode or Auto, and nothing else changes |
| MitsubishiHeavy152Ac.WriteTemp | src/ir_MitsubishiHeavy.cpp:125-136 | `setTemp` then `getTemp` gives the clamped temperature, and nothing else changes |
| MitsubishiHeavy152Ac.WriteFan | src/ir_MitsubishiHeavy.cpp:139-158 | `setFan` then `getFan` gives the speed or Auto, and nothing else changes |
| MitsubishiHeavy152Ac.WriteSwingV | src/ir_MitsubishiHeavy.cpp:179-187 | the vertical swing stored in the top three bits of byte 11 reads back clamped to Off, and nothing else changes |
| MitsubishiHeavy152Ac.Write3D | src/ir_MitsubishiHeavy.cpp:210-219 | only the 3D reading changes |
| MitsubishiHeavy152Ac.WriteSwingH | src/ir_MitsubishiHeavy.cpp:189-197 | the horizontal swing reads back clamped to Off, and nothing else changes |
| MitsubishiHeavy152Ac.WriteNight | src/ir_MitsubishiHeavy.cpp:199-208 | only the night reading changes |
| MitsubishiHeavy152Ac.WriteSilent | src/ir_MitsubishiHeavy.cpp:221-230 | only the silent reading changes |
| MitsubishiHeavy152Ac.ResetState | src/ir_MitsubishiHeavy.cpp:88-94 | `stateReset` produces a 19-byte state |
| MitsubishiHeavy152Ac.ResetGivesSettings | src/ir_MitsubishiHeavy.cpp:88-94 | after `stateReset` every setting reads as off or zero at the minimum temperature |
| MitsubishiHeavy152Ac.PairedKeepsSettings | src/ir_MitsubishiHeavy.cpp:283-289 | `checksum` changes no setting |
| MitsubishiHeavy152Ac.HeavyAc152.constructor | src/ir_MitsubishiHeavy.cpp:76-77 | a new object holds the reset state with the ZM-S signature: the signature, zeros at every second byte up to byte 15 (5, 7, ..., 15 for the five-byte signature), 0x80 at byte 17, and zero in the bytes `stateReset` does not write |
| MitsubishiHeavy152Ac.HeavyAc152.StateReset | src/ir_MitsubishiHeavy.cpp:88-94 | the signature is copied in, the odd bytes 5, 7, ..., 15 after it are zeroed and byte 17 is set; the reset settings follow |
| MitsubishiHeavy152Ac.HeavyAc152.Checksum | src/ir_MitsubishiHeavy.cpp:283-289 | the pairs are recomputed in place, become valid, and no setting changes |
| MitsubishiHeavy152Ac.HeavyAc152.GetRaw | src/ir_MitsubishiHeavy.cpp:96-99 | `getRaw` always recomputes the pairs before returning the state |
| MitsubishiHeavy152Ac.HeavyAc152.SetRaw | src/ir_MitsubishiHeavy.cpp:101-104 | `setRaw` copies the first 19 bytes |
| MitsubishiHeavy152Ac.HeavyAc152.Send | src/ir_MitsubishiHeavy.cpp:82-85 | `send` recomputes the pairs and sends the 19 bytes |
| MitsubishiHeavy152Ac.HeavyAc152.SetPower | src/ir_MitsubishiHeavy.cpp:114-119 | only the power bit of byte 5 and the power reading change |
| MitsubishiHeavy152Ac.HeavyAc152.SetTemp | src/ir_MitsubishiHeavy.cpp:125-132 | byte 7 takes the clamped offset, and the temperature reads as clamped |
| MitsubishiHeavy152Ac.HeavyAc152.SetFan | src/ir_MitsubishiHeavy.cpp:139-154 | byte 9 takes the speed or Auto |
| MitsubishiHeavy152Ac.HeavyAc152.SetMode | src/ir_MitsubishiHeavy.cpp:160-173 | byte 5 takes the mode or Auto |
| MitsubishiHeavy152Ac.HeavyAc152.SetSwingV | src/ir_MitsubishiHeavy.cpp:179-183 | the top three bits of byte 11 take the clamped position |
| MitsubishiHeavy152Ac.HeavyAc152.SetSwingH | src/ir_MitsubishiHeavy.cpp:189-193 | byte 13 takes the clamped position |
| MitsubishiHeavy152Ac.HeavyAc152.SetNight | src/ir_MitsubishiHeavy.cpp:199-204 | only the night bit changes |
| MitsubishiHeavy152Ac.HeavyAc152.Set3D | src/ir_MitsubishiHeavy.cpp:210-215 | only the 3D bits change |
| MitsubishiHeavy152Ac.HeavyAc152.SetSilent | src/ir_MitsubishiHeavy.cpp:221-226 | only the silent bit changes |
| MitsubishiHeavy152Ac.HeavyAc152.SetFilter | src/ir_MitsubishiHeavy.cpp:232-237 | only the filter bit changes |
| MitsubishiHeavy152Ac.HeavyAc152.SetClean | src/ir_MitsubishiHeavy.cpp:243-253 | `setClean(on)` also sets the filter, and `getClean`, which needs both bits, then reads `on` |
| MitsubishiHeavy152Ac.HeavyAc152.SetTurbo | src/ir_MitsubishiHeavy.cpp:255-263 | turbo on sets the fan to Turbo; turbo off resets the fan to Auto only when it is Turbo |
| MitsubishiHeavy152Ac.HeavyAc152.SetEcono | src/ir_MitsubishiHeavy.cpp:265-273 | econo on sets the fan to Econo; econo off resets the fan to Auto only when it is Econo |
| MitsubishiHeavy88Ac.Heavy88Layout.FanCode | src/ir_MitsubishiHeavy.cpp:502-516 | an unknown fan speed becomes Auto, and the code fits three bits |
| MitsubishiHeavy88Ac.Heavy88Layout.SwingVCode | src/ir_MitsubishiHeavy.cpp:541-559 | an unknown vertical position becomes Off |
| MitsubishiHeavy88Ac.Heavy88Layout.SwingHCode | src/ir_MitsubishiHeavy.cpp:566-585 | an unknown horizontal position becomes Off |
| MitsubishiHeavy88Ac.SameData | src/ir_MitsubishiHeavy.cpp:484-631 | the 88-bit getters read only bytes 5, 7 and 9 |
| MitsubishiHeavy88Ac.WritePower | src/ir_MitsubishiHeavy.cpp:469-486 | `on` and `off` change the power reading only |
| MitsubishiHeavy88Ac.WriteMode | src/ir_MitsubishiHeavy.cpp:522-539 | `setMode` then `getMode` gives the mode or Auto, and nothing else changes |
| MitsubishiHeavy88Ac.WriteTemp | src/ir_MitsubishiHeavy.cpp:488-499 | `setTemp` then `getTemp` gives the clamped temperature, and nothing else changes |
| MitsubishiHeavy88Ac.WriteFan | src/ir_MitsubishiHeavy.cpp:502-520 | `setFan` then `getFan` gives the speed or Auto, and nothing else changes |
| MitsubishiHeavy88Ac.WriteSwingV | src/ir_MitsubishiHeavy.cpp:541-564 | the vertical position, split over bytes 5 and 7, reads back as the position or Off, and nothing else changes |
| MitsubishiHeavy88Ac.WriteSwingH | src/ir_MitsubishiHeavy.cpp:566-589 | the horizontal position reads back as the position or Off, and nothing else changes |
| MitsubishiHeavy88Ac.WriteClean | src/ir_MitsubishiHeavy.cpp:622-631 | only the clean reading changes |
| MitsubishiHeavy88Ac.ResetState | src/ir_MitsubishiHeavy.cpp:452-457 | `stateReset` gives an 11-byte state starting with the ZJ-S signature |
| MitsubishiHeavy88Ac.ResetGivesSettings | src/ir_MitsubishiHeavy.cpp:452-457 | after `stateReset` every setting reads as off or zero at the minimum temperature |
| MitsubishiHeavy88Ac.PairedKeepsSettings | src/ir_MitsubishiHeavy.cpp:641-647 | `checksum` changes no setting |
| MitsubishiHeavy88Ac.HeavyAc88.constructor | src/ir_MitsubishiHeavy.cpp:440-441 | a new object holds the reset state |
| MitsubishiHeavy88Ac.HeavyAc88.StateReset | src/ir_MitsubishiHeavy.cpp:452-457 | the signature followed by zeros; the reset settings follow |
| MitsubishiHeavy88Ac.HeavyAc88.Checksum | src/ir_MitsubishiHeavy.cpp:641-647 | the pairs are recomputed in place, become valid, and no setting changes |
| MitsubishiHeavy88Ac.HeavyAc88.GetRaw | src/ir_MitsubishiHeavy.cpp:459-462 | `getRaw` always recomputes the pairs before returning the state |
| MitsubishiHeavy88Ac.HeavyAc88.SetRaw | src/ir_MitsubishiHeavy.cpp:464-467 | `setRaw` copies the first 11 bytes |
| MitsubishiHeavy88Ac.HeavyAc88.Send | src/ir_MitsubishiHeavy.cpp:446-449 | `send` recomputes the pairs and sends the 11 bytes |
| MitsubishiHeavy88Ac.HeavyAc88.SetPower | src/ir_MitsubishiHeavy.cpp:477-482 | only the power bit of byte 9 and the power reading change |
| MitsubishiHeavy88Ac.HeavyAc88.SetTemp | src/ir_MitsubishiHeavy.cpp:488-495 | the top nibble of byte 9 takes the clamped offset, and the temperature reads as clamped |
| MitsubishiHeavy88Ac.HeavyAc88.SetFan | src/ir_MitsubishiHeavy.cpp:502-516 | the top three bits of byte 7 take the speed or Auto |
| MitsubishiHeavy88Ac.HeavyAc88.SetMode | src/ir_MitsubishiHeavy.cpp:522-535 | byte 9 takes the mode or Auto |
| MitsubishiHeavy88Ac.HeavyAc88.SetSwingV | src/ir_MitsubishiHeavy.cpp:541-559 | the two parts of the position go to bytes 5 and 7 |
| MitsubishiHeavy88Ac.HeavyAc88.SetSwingH | src/ir_MitsubishiHeavy.cpp:566-585 | byte 5 takes the position or Off |
| MitsubishiHeavy88Ac.HeavyAc88.SetTurbo | src/ir_MitsubishiHeavy.cpp:591-599 | turbo on sets the fan to Turbo; turbo off resets it to Auto only when it is Turbo |
| MitsubishiHeavy88Ac.HeavyAc88.SetEcono | src/ir_MitsubishiHeavy.cpp:601-609 | econo on sets the fan to Econo; econo off resets it to Auto only when it is Econo |
| MitsubishiHeavy88Ac.HeavyAc88.Set3D | src/ir_MitsubishiHeavy.cpp:611-620 | 3D on sets the horizontal swing to 3D; 3D off resets it to Off only when it is 3D |
| MitsubishiHeavy88Ac.HeavyAc88.SetClean | src/ir_MitsubishiHeavy.cpp:622-627 | only the clean bit changes |
| Vestel.CrcOf | src/ir_Vestel.cpp:219-228 | the checksum is `0xFF - (popcount(state & mask) + 2)`, which lies in [0xFF - 66, 0xFF - 2] |
| Vestel.OnesPopcount | src/ir_Vestel.cpp:219-228 | the loop's running count of set bits is the number of ones among the word's bits |
| Vestel.CalcChecksum | src/ir_Vestel.cpp:219-228 | the shifting loop over the masked word computes `CrcOf` |
| Vestel.ValidChecksumField | src/ir_Vestel.cpp:235-237 | `validChecksum` holds exactly when bits 12..19 equal the computed checksum |
| Vestel.CrcWithoutCrc | src/ir_Vestel.cpp:219-243 | with a mask that excludes the checksum byte, writing that byte does not change the checksum |
| Vestel.WithCrc | src/ir_Vestel.cpp:240-243 | `checksum` leaves a 64-bit word |
| Vestel.WithCrcValid | src/ir_Vestel.cpp:235-243 | after `checksum` the checksum is valid |
| Vestel.WithCrcIdempotent | src/ir_Vestel.cpp:240-243 | `checksum` is idempotent |
| Vestel.WithCrcOfValid | src/ir_Vestel.cpp:235-243 | a word whose checksum is valid is left unchanged by `checksum` |
| Vestel.LittleEndian | src/ir_Vestel.cpp:84-89 | the bytes assemble into a value below `2^(8 * count)` |
| Vestel.LittleEndianFields | src/ir_Vestel.cpp:84-89 | byte i of the 7 lands in bits 8i..8i+7, and the top byte is zero |
| Vestel.AssembleWord | src/ir_Vestel.cpp:84-89 | the OR-and-shift loop over 7 bytes computes the little-endian word |
| Vestel.SendVestelAc | src/ir_Vestel.cpp:40-49 | nothing is sent when `nbits % 8 != 0`; otherwise `repeat + 1` frames of `2 * nbits + 4` pulses |
| Vestel.DecodeVestelAc | src/ir_Vestel.cpp:345-389 | a decode rejects `nbits % 8 != 0` and `nbits > 64`, needs the header and footer marks, returns a value below `2^nbits`, and in strict mode needs `nbits == kVestelACBits` and a valid checksum |
| Vestel.VestelCapture | src/ir_Vestel.cpp:40-49 | the shape of a captured send: header mark and space, the data pulses, the footer mark |
| Vestel.DecodesSentWord | src/ir_Vestel.cpp:40-389 | decoding a captured send gives back the word for every multiple of 8 up to 64 bits; in strict mode this needs the full size and a valid checksum |
| Vestel.DecodesMatchedWord | src/ir_Vestel.cpp:345-389 | a matched header, data and footer decode to the data word |
| VestelAcState.VestelLayout.ClampTemp | src/ir_Vestel.cpp:113-119 | the temperature is clamped to [min, max] |
| VestelAcState.VestelLayout.TempCode | src/ir_Vestel.cpp:113-119 | the stored value is the clamped temperature minus 16, and it fits its member |
| VestelAcState.VestelLayout.FanCode | src/ir_Vestel.cpp:128-140 | an unknown fan value becomes `kVestelACFanAuto` |
| VestelAcState.VestelLayout.ModeCode | src/ir_Vestel.cpp:151-164 | an unknown mode becomes `kVestelACAuto` |
| VestelAcState.WritePower | src/ir_Vestel.cpp:96-107 | writing the power member changes only the power reading |
| VestelAcState.WriteTemp | src/ir_Vestel.cpp:113-119 | writing the temperature member changes only the temperature reading |
| VestelAcState.WriteFan | src/ir_Vestel.cpp:128-140 | writing the fan member changes only the fan reading |
| VestelAcState.WriteMode | src/ir_Vestel.cpp:151-164 | writing the mode member changes only the mode reading |
| VestelAcState.WriteTurboSleep | src/ir_Vestel.cpp:179-191 | writing the shared sleep/turbo member changes only that reading |
| VestelAcState.WriteIon | src/ir_Vestel.cpp:199-201 | writing the ion member changes only the ion reading |
| VestelAcState.WriteSwing | src/ir_Vestel.cpp:207-209 | writing the swing member changes only the swing reading |
| VestelAcState.WithCrcKeepsSettings | src/ir_Vestel.cpp:240-243 | `checksum` changes no setting |
| VestelAcState.PowerReadBack | src/ir_Vestel.cpp:96-110 | `getPower` after `setPower(on)` is `on` |
| VestelAcState.TempReadBack | src/ir_Vestel.cpp:113-124 | `getTemp` after `setTemp(t)` is `t` clamped |
| VestelAcState.SleepTurboReadBack | src/ir_Vestel.cpp:179-196 | turning sleep on turns turbo off and the other way round; turning either one off gives Normal |
| VestelAcState.IonSwingReadBack | src/ir_Vestel.cpp:199-212 | `getIon` and `getSwing` read back what was set |
| VestelAcState.VestelAc.constructor | src/ir_Vestel.cpp:55 | a new object holds the reset word |
| VestelAcState.VestelAc.StateReset | src/ir_Vestel.cpp:58-61 | the word becomes 0x0F00D9001FEF201 |
| VestelAcState.VestelAc.Checksum | src/ir_Vestel.cpp:240-243 | the checksum byte is stored, the checksum is then valid, and no setting changes |
| VestelAcState.VestelAc.GetRaw | src/ir_Vestel.cpp:78-81 | `getRaw` stores the checksum and returns the word |
| VestelAcState.VestelAc.SetRawWord | src/ir_Vestel.cpp:91-93 | `setRaw(uint64_t)` stores the word |
| VestelAcState.VestelAc.SetRawBytes | src/ir_Vestel.cpp:84-89 | `setRaw(uint8_t*)` stores the little-endian word of the first 7 bytes |
| VestelAcState.VestelAc.Send | src/ir_Vestel.cpp:71-74 | `send` stores the checksum and sends the word with the full bit count |
| VestelAcState.VestelAc.SetPower | src/ir_Vestel.cpp:96-107 | power on stores 0xF and power off 0xC, and `getPower` reads it back |
| VestelAcState.VestelAc.SetTemp | src/ir_Vestel.cpp:113-119 | the member stores the clamped temperature minus 16, and `getTemp` reads the clamped value |
| VestelAcState.VestelAc.SetFan | src/ir_Vestel.cpp:128-140 | the fan member takes the value or Auto |
| VestelAcState.VestelAc.SetMode | src/ir_Vestel.cpp:151-164 | the mode member takes the value or Auto |
| VestelAcState.VestelAc.SetAuto | src/ir_Vestel.cpp:166-176 | a level outside [−2, 2] changes nothing; otherwise mode Auto, fan AutoCool for negative levels and AutoHot otherwise, and the temperature from the table 2→30, 1→31, 0→25, −1→16, −2→17 |
| VestelAcState.VestelAc.SetSleep | src/ir_Vestel.cpp:179-181 | sleep reads `on` and turbo reads off |
| VestelAcState.VestelAc.SetTurbo | src/ir_Vestel.cpp:189-191 | turbo reads `on` and sleep reads off |
| VestelAcState.VestelAc.SetIon | src/ir_Vestel.cpp:199-201 | ion reads `on` |
| VestelAcState.VestelAc.SetSwing | src/ir_Vestel.cpp:207-209 | swing reads `on` |
| MilesTag2.MilesPulses | src/ir_MilesTag2.cpp:48-72 | nbits = 0 sends only the header mark and ignores `repeat`; otherwise, for `repeat < 0xFFFF`, `repeat + 1` rounds of `2 * nbits + 2` pulses, each round being header, data and gap |
| MilesTag2.SendMilesData | src/ir_MilesTag2.cpp:62-69 | the mask-shifting loop sends the bits most significant first, each as a 600 µs space and a 1200 µs (one) or 600 µs (zero) mark |
| MilesTag2.MilesFrame | src/ir_MilesTag2.cpp:55-70 | one round is `2 * nbits + 2` pulses: the header mark, the data pairs and the gap |
| MilesTag2.SendMiles | src/ir_MilesTag2.cpp:48-72 | the repeat loop, with its 16-bit round counter, emits exactly `MilesPulses` |
| MilesTag2.SendMilesShot | src/ir_MilesTag2.cpp:36-40 | the shot sender is `_sendMiles` |
| MilesTag2.SendMilesMsg | src/ir_MilesTag2.cpp:42-46 | the message sender is `_sendMiles` |
| MilesTag2.KindOf | src/ir_MilesTag2.cpp:132-142 | 14 bits is a shot, 24 a message, and any other size is no type |
| MilesTag2.MilesBits | src/ir_MilesTag2.cpp:117-128 | the bit loop returns exactly `n` bits, read from `2n` entries of the capture |
| MilesTag2.MilesDecoding | src/ir_MilesTag2.cpp:85-146 | a decode needs the header mark and returns nbits of 14 or 24 with its type, a value below `2^nbits`, and zero command and address |
| MilesTag2.DecodingOfBits | src/ir_MilesTag2.cpp:112-146 | a failed bit fails the decode; read bits give the value MSB-first; a size other than 14 or 24 fails |
| MilesTag2.ReadMilesData | src/ir_MilesTag2.cpp:116-128 | the accumulator loop `(data << 1) | bit` computes the MSB-first value of the bits, and fails at the first pair that is neither bit |
| MilesTag2.DecodeMiles | src/ir_MilesTag2.cpp:85-146 | the decoder computes `MilesDecoding` |
| MilesTag2.StrictChangesNothing | src/ir_MilesTag2.cpp:101-142 | strict and non-strict decodes agree, because the type switch rejects other sizes anyway |
| MilesTag2.MilesBitsOfData | src/ir_MilesTag2.cpp:117-128 | sent data pulses are read back as the same bits |
| MilesTag2.DecodesSent | src/ir_MilesTag2.cpp:48-146 | decoding a captured send from its header gives the data truncated to nbits, for nbits in {14, 24} |
| Pioneer.MinGapInTicks | src/ir_Pioneer.cpp:25-48 | `kNecMinGap == kNecMinGapTicks * kNecTick`, which is 22400 µs, or 40 ticks |
| Pioneer.LowCode | src/ir_Pioneer.cpp:67 | the second code is below 2^32 |
| Pioneer.RepeatPart | src/ir_Pioneer.cpp:93-99 | no repeat frame is sent exactly when `repeat == 0` |
| Pioneer.SendPioneer | src/ir_Pioneer.cpp:62-100 | the fixed sequence of sends emits the high code, the separator, the low code and the optional repeat part |
| Pioneer.SeparatorPulses | src/ir_Pioneer.cpp:78-82 | the separator is exactly a 560 µs mark and a 989 µs space (989 is not multiplied by the tick) |
| Pioneer.RepeatFramePulses | src/ir_Pioneer.cpp:93-99 | one repeat frame is header mark, repeat space, bit mark, and a space up to the minimum command length |
| Pioneer.CodeFrameLasts | src/ir_Pioneer.cpp:70-75 | every code frame lasts at least the minimum command length |
| Pioneer.CodesCarryWord | src/ir_Pioneer.cpp:64-67 | for a 64-bit word the two 32-bit codes carry the word's 64 bits, high half first, and recombine to the word |
| Pioneer.PioneerShape | src/ir_Pioneer.cpp:62-100 | the whole send: the high code's frame MSB-first, the separator pair, the low code's frame, then `repeat` repeat frames |

## Left out

- Hardware plumbing: `begin()`, `enableIROut`, the carrier frequency and duty cycle, the inverted-output and modulation constructor arguments, and the hardware `mark`/`space` calls. Sending is a pure list of pulses.
- All `toString` methods and `IRCoronaAc::toCommon`: they format text or fill the external `stdAc` structure.
- `DPRINT` debug output, and the commented-out gap search in `decodeMiles`.
- The internals of `sendGeneric`, `matchGeneric`, `matchData`, `matchMark`, `matchSpace` and `matchAtLeast` are not part of this model:
  - their behaviour is the specification in the `IrSignal` module;
  - the tolerance percentages and the mark excess are not modelled;
  - the matcher is a parameter, and the round-trip lemmas assume only that it accepts exact durations and tells a zero bit from a one bit.
- Most constants from headers that are not part of this model are layout parameters, and each layout's `Valid()` states what the proofs assume of them. The layouts hold bit positions, masks, value codes, temperature limits, the Vestel timings, `kVestelACBits` and `kVestelACCRCMask`, the Mitsubishi Heavy signatures, signature length and gap, and the Corona label base and timer constants.
  - The Corona timer proofs further assume `timerMax * unitsPerMin < timerOff` (`CoronaLayout.TimersFit`), so that an in-range count never equals the "off" code.
  - The Vestel checksum proofs assume that the mask leaves out bits 12..19 (`SkipsCrc`).
  - `VestelAcState.SomeLayoutValid` exhibits a Vestel layout that meets all of these assumptions together. Its positions and codes are an instance and not the header's values.
  - The Mitsubishi Heavy signature length is taken to be 3 or 5.
  - Pioneer takes `kNECBits` to be 32.
- Some header constants are not layout parameters. Their values do not appear in the source files; the model fixes them to values inferred from those files:
  - `kCoronaAcSectionBytes` = 7, `kCoronaAcSections` = 3 and `kCoronaAcStateLength` = 21 come from the example message of src/ir_Corona.cpp:40-43, three lines of seven bytes.
  - `kCoronaAcBits` = 168 and `kCoronaAcBitsShort` = 56 are 8 times those byte counts, as the "bits = 56; bytes = 7" comment at src/ir_Corona.cpp:58 says.
  - `kCoronaAcSectionB0` = 0x28 and `kCoronaAcSectionB1` = 0x61 come from the example message and from the "expected 0x28" and "expected 0x61" debug strings at src/ir_Corona.cpp:195 and 202.
  - The section byte positions `kCoronaAcSectionB0Pos` … `kCoronaAcSectionD1InvPos` = 0 … 6 (B0, B1, label, D0, D0 inverted, D1, D1 inverted) follow the order of the example sections at src/ir_Corona.cpp:59-61 and the checks of src/ir_Corona.cpp:186-237.
  - `kMitsubishiHeavy88StateLength` = 11 and `kMitsubishiHeavy152StateLength` = 19 are the bit counts 88 and 152 over 8.
- Reads of a capture past its end count as failed matches. The C code reads the buffer without a bounds check in `decodeMiles`, in `decodeVestelAC`, and in the Mitsubishi Heavy footer.
- The decoders return `Option` values rather than writing `decode_results`:
  - fields that `decodeMiles` writes before it fails (`bits`, `value`) are not modelled;
  - the capture is a sequence, so the decoders' `uint16_t` offsets cannot overflow.
- `decodeMiles` accumulates into a `uint64_t`. The model does not wrap, because a decode succeeds only for 14 or 24 bits. `kMilesMinGap`, `kMilesStdFreq` and `kMilesStdDuty` are not used by the modelled behaviour.
- Corona.CoronaAcPulses, Corona.SendCoronaAc and CoronaAcState.CoronaAc.Send require `repeat < 0xFFFF`: the source's `uint16_t` round counter wraps from 0xFFFF to 0 under the test `r <= repeat`, so with `repeat == 0xFFFF` the sender never returns, and a send that does not end is not modelled.
- MilesTag2.MilesPulses, MilesTag2.SendMiles, MilesTag2.SendMilesShot, MilesTag2.SendMilesMsg and MilesTag2.DecodesSent require `nbits == 0 || repeat < 0xFFFF` for the same reason: with bits to send and `repeat == 0xFFFF` the `uint16_t` counter wraps and `_sendMiles` loops forever; only the `nbits == 0` early return ends it.
- MilesTag2.MilesPulses: for `nbits > 64` the C shift `1ULL << (nbits - 1)` is undefined; the model sends `nbits` bits of the value, the extra leading ones as zeros.
- The `on()`/`off()` methods of `IRVestelAC` and of both Mitsubishi Heavy classes are the two branches of `setPower` and are modelled through `SetPower(true)` and `SetPower(false)`.
- Mitsubishi Heavy getters (`getPower`, `getTemp`, `getFan`, ...) are functions on the state array, and `Settings()` collects them; they are not separate class methods. The same holds for the Corona and Vestel getters.
- MitsubishiHeavy152Ac.HeavyAc152.constructor: the new array is zero-filled before `stateReset`, so the bytes `stateReset` does not write start at zero; the C++ member array is left uninitialised, so those bytes are unspecified there.
- CoronaAcState.CoronaAc.StateReset: states the settings read after the reset and that all sections are valid, not each byte of the new array.
- CoronaAcState.CoronaAc.constructor: states the reset settings and valid sections, not each byte.
- CoronaAcState.CoronaAc.SetPower: states the new settings, not the new bytes; the checksum bytes it leaves alone are not stated.
- CoronaAcState.CoronaAc.On: as for `SetPower(true)`, stated through the settings only.
- CoronaAcState.CoronaAc.Off: as for `SetPower(false)`, stated through the settings only.
- CoronaAcState.CoronaAc.SetOnTimer: states the new settings, not the new bytes.
- CoronaAcState.CoronaAc.SetOffTimer: states the new settings, not the new bytes.
- VestelAcState.VestelAc.SetAuto: for an accepted level it states the new settings, not the new word.
- MitsubishiHeavy88Ac.HeavyAc88.SetTurbo: states the new settings, not the new bytes.
- MitsubishiHeavy88Ac.HeavyAc88.SetEcono: states the new settings, not the new bytes.
- MitsubishiHeavy88Ac.HeavyAc88.Set3D: states the new settings, not the new bytes.
- MitsubishiHeavy152Ac.HeavyAc152.SetClean: states the new settings, not the new bytes.
- MitsubishiHeavy152Ac.HeavyAc152.SetTurbo: states the new settings, not the new bytes.
- MitsubishiHeavy152Ac.HeavyAc152.SetEcono: states the new settings, not the new bytes.

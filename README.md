# HT16K33 alphanumeric display driver, modelled in Dafny

This project models the core of the SparkFun driver for chains of one to
four Holtek HT16K33 fourteen-segment displays. The driver lives in
`src/SparkFun_Alphanumeric_Display.cpp`, and the model covers these parts of it:

- **Glyphs**: the built-in table `alphanumeric_segs` and the byte-to-index rule of `printChar`. It also covers the user override list that `defineChar` appends to and `getSegmentsToTurnOn` searches.
- **Wiring**: the segment address resolver of `illuminateSegment`. It maps a segment letter and a digit to a byte and a bit of `displayRAM`.
- **Ram**: the RAM image as a value. This module sets bits, paints a glyph one segment at a time, and writes the decimal-point and colon status bits. It also reads a digit's segments back out of the image.
- **Commands**: `begin`'s chip count, `lookUpDisplayAddress`, and the one-byte commands for the oscillator, the dimming duty and the display/blink setup.
- **Render**: the whole driver state as a value (`Frame`), with one function per operation giving the new state and the returned `bool`. The operations are:
  - `updateDisplay`;
  - the per-chip calls, and the chain-wide loops that AND their results;
  - `clear`, `printChar`, both `write` overloads and the two shifts of `displayContent`;
  - `isConnected`, `initialize` and `begin`.

  The lemmas here state what these functions guarantee.
- **Display**: the class `Ht16k33`. `displayRAM` and `displayContent` are arrays updated in place by loops. The cursor, the override list and the stored codes are fields.
  - Each method is proved to leave the object in the state given by the matching `Render` function, and to return the result that function gives.
  - Every bus transaction the object makes is appended to `log`. An oracle `ack` says whether transaction number t is acknowledged.

The values of the header constants (`ALPHA_CMD_*`, the blink, on/off, decimal and colon codes, `DEFAULT_NOTHING_ATTACHED`) are declared without a value. Every proof holds whatever those values are.

`displayRAM` has 64 bytes, 16 per chip. `displayContent` has 17 slots, because `begin` writes its terminator at index 16.

Every operation keeps the driver state well formed (`Render.Wf`, the class's `Valid()`). The cursor stays on a digit of the chain, and the content slots past the chain hold 0. The content never holds '.' or ':': `write(buffer, size)` records only the other bytes, the shifts write ' ', and `begin` writes 0.

## Model

| member | source | states |
|---|---|---|
| Glyphs.CharacterPosition | src/SparkFun_Alphanumeric_Display.cpp:646-664 | The index `printChar` uses is below 96. It is 95 exactly for bytes outside ' '..'~', and is the index of the byte itself otherwise. '.' alone maps to 14 and ':' alone to 26. |
| Glyphs.CharAtRoundTrip | src/SparkFun_Alphanumeric_Display.cpp:646-664 | Every index below 95 is reached by exactly one character, its own. |
| Glyphs.TableFacts | src/SparkFun_Alphanumeric_Display.cpp:39-142 | The built-in table has 96 entries, each of which fits in 14 bits. ' ', '.' and ':' are blank, and the unknown glyph lights all fourteen segments. |
| Glyphs.FindDef | src/SparkFun_Alphanumeric_Display.cpp:724-730 | The list search finds nothing iff no node has the position. Otherwise it returns the glyph of the first node from the head with that position. |
| Glyphs.SegmentsToTurnOn | src/SparkFun_Alphanumeric_Display.cpp:720-743 | `getSegmentsToTurnOn` returns the glyph of the first matching override node, or the table entry when no node matches. The result fits in 14 bits when the list does. |
| Glyphs.Define | src/SparkFun_Alphanumeric_Display.cpp:676-717 | `defineChar` returns true exactly for '!'..'~'. In that case it appends (index, segments & 0x3FFF) at the tail; otherwise the list is unchanged. |
| Glyphs.FindDefAppend | src/SparkFun_Alphanumeric_Display.cpp:676-743 | Appending a node changes the search only for a position that had no node before. |
| Glyphs.RedefinitionIgnored | src/SparkFun_Alphanumeric_Display.cpp:676-743 | Redefining an already defined character leaves its shown glyph unchanged. |
| Glyphs.FirstDefinitionShown | src/SparkFun_Alphanumeric_Display.cpp:676-743 | After a first definition, the character shows the new segments, masked to 14 bits. |
| Glyphs.DefinitionIsLocal | src/SparkFun_Alphanumeric_Display.cpp:676-743 | Defining one character leaves the glyph of every byte with another index unchanged. |
| Glyphs.Glyph | src/SparkFun_Alphanumeric_Display.cpp:643-671 | The glyph `printChar` paints for a byte: the first override node for the byte's index, or the table entry when there is none. It fits in 14 bits when every override does. |
| Wiring.SegmentLetter | src/SparkFun_Alphanumeric_Display.cpp:635-639 | Bit i of a glyph is handed to `illuminateSegment` as letter 'A' + i, which lies in 'A'..'N'. |
| Wiring.SegmentAddress | src/SparkFun_Alphanumeric_Display.cpp:586-630 | For segment letter s and digit d, the byte is 2·com + 16·(d/4) and the bit is d%4, plus 4 after 'G'. com is the common line, with H and I swapped. The byte is even, lies in its chip's block at offset at most 12, and the bit is below 8, so the `row > 7` branch is dead. |
| Wiring.CommonLinesDistinct | src/SparkFun_Alphanumeric_Display.cpp:591-598 | Within A..G and within H..N, the common lines are pairwise different. |
| Wiring.AddressInjective | src/SparkFun_Alphanumeric_Display.cpp:591-614 | Distinct (segment, digit) pairs below 16 digits own distinct (byte, bit) pairs. |
| Wiring.StatusBytesApart | src/SparkFun_Alphanumeric_Display.cpp:474-553 | No segment of any digit lives in a decimal-point or colon status byte. |
| Ram.SetBit | src/SparkFun_Alphanumeric_Display.cpp:629 | The OR into `displayRAM[adr]` leaves every other byte as it was. |
| Ram.SetBitLit | src/SparkFun_Alphanumeric_Display.cpp:629 | After the OR, a bit is set iff it was set before or it is the addressed bit. |
| Ram.PaintSegsLit | src/SparkFun_Alphanumeric_Display.cpp:633-640 | After i steps of the loop, a RAM bit is set iff it was set before or a segment among 0..i-1 that is lit in the mask lives there. |
| Ram.Paint | src/SparkFun_Alphanumeric_Display.cpp:633-640 | `illuminateChar` as its loop over segment bits 0..13. PaintOwnDigit, PaintOtherDigit, PaintSegsCovers and ShownPaint state what it does to the image. |
| Ram.PaintOwnDigit | src/SparkFun_Alphanumeric_Display.cpp:633-640 | On the painted digit, segment j is lit iff it was lit before or bit j of the mask is set. |
| Ram.PaintOtherDigit | src/SparkFun_Alphanumeric_Display.cpp:633-640 | Every segment of every other digit keeps its state. |
| Ram.PaintSegsCovers | src/SparkFun_Alphanumeric_Display.cpp:633-640 | `illuminateChar` never clears a bit. |
| Ram.ShownPaint | src/SparkFun_Alphanumeric_Display.cpp:633-640 | The painted digit shows its old segments plus those of mask bits 0..13, ignoring bits 14 and 15. Every other digit shows what it showed before. |
| Ram.ShownPaintBlank | src/SparkFun_Alphanumeric_Display.cpp:633-640 | Painting a blank digit makes it show exactly the mask's segments. |
| Ram.PaintReadBack | src/SparkFun_Alphanumeric_Display.cpp:633-640 | On a blank digit, the image shows the segments of a 14-bit mask iff that mask is the one painted, so the painted glyph can be read back. |
| Ram.OrStatus | src/SparkFun_Alphanumeric_Display.cpp:474-492 | The status write as written ORs 1 ("on") or 0 ("off") into one byte. Bit 0 becomes 1 for "on" and keeps its value for "off"; bits 1..7 and every other byte are kept. |
| Ram.OrStatusOffIsNoOp | src/SparkFun_Alphanumeric_Display.cpp:486-490 | As written, "off" leaves the image unchanged. |
| Ram.SetStatus | src/SparkFun_Alphanumeric_Display.cpp:474-492 | The intended status write: bit 0 of the status byte is set iff "on". Bits 1..7 and every other byte are kept. |
| Ram.SetStatusOn | src/SparkFun_Alphanumeric_Display.cpp:474-492 | For "on", the intended write equals the code as written and clears no bit. |
| Ram.OddBytesKeepGlyphs | src/SparkFun_Alphanumeric_Display.cpp:586-630 | Two images that differ only in odd bytes show the same segments on every digit. |
| Commands.ChipCount | src/SparkFun_Alphanumeric_Display.cpp:154-161 | The chip count is in 1..4. Every position from the count on is unattached, and for a count of 2 or more the last counted position is attached. |
| Commands.ChipCountUnique | src/SparkFun_Alphanumeric_Display.cpp:154-161 | No other count has both of those properties. |
| Commands.LookUpDisplayAddress | src/SparkFun_Alphanumeric_Display.cpp:319-338 | Chips 0..3 resolve to the left..right address; any other number resolves to 0. |
| Commands.DimmingCommand | src/SparkFun_Alphanumeric_Display.cpp:365-372 | The command byte of `setBrightnessSingle`. DimmingFields and DimmingSaturates state its fields and the clamp to 15. |
| Commands.DimmingFields | src/SparkFun_Alphanumeric_Display.cpp:365-372 | The dimming command carries the register code in its high nibble and min(duty, 15) in its low nibble. |
| Commands.DimmingSaturates | src/SparkFun_Alphanumeric_Display.cpp:367-368 | Every duty of 15 or more sends the same command as 15. |
| Commands.DisplayCommand | src/SparkFun_Alphanumeric_Display.cpp:422-431 | The command byte of `setDisplayOnOff` and `setBlinkRateSingle`. DisplayFields reads the setup, blink and on/off fields back out of it. |
| Commands.DisplayFields | src/SparkFun_Alphanumeric_Display.cpp:429 | The display-setup command reads back as setup code, blink code in bits 1..2, and on/off code in bit 0. |
| Commands.SystemCommand | src/SparkFun_Alphanumeric_Display.cpp:303-317 | The command byte of `enableSystemClockSingle` and `disableSystemClockSingle`. SystemFields shows bit 0 is the oscillator state. |
| Commands.SystemFields | src/SparkFun_Alphanumeric_Display.cpp:303-317 | Bit 0 of the system-setup command is 1 for oscillator on and 0 for standby. |
| Commands.BlinkCodeFor | src/SparkFun_Alphanumeric_Display.cpp:388-407 | The blink code is one of the four codes, and it is "no blink" for every rate other than 2, 1 and 0.5. |
| Commands.BlinkCodeSelects | src/SparkFun_Alphanumeric_Display.cpp:388-407 | With four distinct blink codes, the code picked is the 2 Hz, 1 Hz or 0.5 Hz code exactly for that rate, and the no-blink code exactly for every other rate. |
| Render.FlushChips | src/SparkFun_Alphanumeric_Display.cpp:810-827 | After i chips, `updateDisplay`'s loop has changed nothing but the log, and has appended exactly i transactions to it. |
| Render.FlushChipsSpec | src/SparkFun_Alphanumeric_Display.cpp:810-827 | After i chips the loop has sent each chip in order its own 16 bytes at register 0. Its status is true iff every one of those writes was acknowledged. |
| Render.Flush | src/SparkFun_Alphanumeric_Display.cpp:810-827 | `updateDisplay`: only the log changes, and it grows by one transaction per chip. FlushChipsSpec shows the chip loop sends each chip its own block at register 0 and returns true iff all were acknowledged. |
| Render.SingleAcks | src/SparkFun_Alphanumeric_Display.cpp:303-553 | A per-chip call returns true iff every transaction it made was acknowledged. |
| Render.Single | src/SparkFun_Alphanumeric_Display.cpp:303-553 | One per-chip call. It keeps the driver state well formed; SingleKeeps, SingleCommand and SingleAcks state the fields it stores, the transaction it sends and its result. |
| Render.ChainKeeps | src/SparkFun_Alphanumeric_Display.cpp:281-581 | A chain-wide loop leaves the cursor, the content and the overrides alone, and only appends to the log. |
| Render.ChainAcks | src/SparkFun_Alphanumeric_Display.cpp:281-581 | A chain-wide loop returns true iff every transaction of every chip's call was acknowledged. |
| Render.ChainCommands | src/SparkFun_Alphanumeric_Display.cpp:354-363 | A command loop over chips 0..i-1 stores the call's fields once, and sends each chip in order the same command byte. |
| Render.Chain | src/SparkFun_Alphanumeric_Display.cpp:281-581 | A chain-wide loop over chips 0..i-1. It keeps the driver state well formed; ChainKeeps, ChainAcks, ChainCommands and ChainStatus state what it changes, its result and its traffic. |
| Render.EnableSystemClock | src/SparkFun_Alphanumeric_Display.cpp:281-290 | `enableSystemClock`. ChainCommands shows it sends every chip the oscillator-on command, and ChainAcks that it returns true iff all were acknowledged. |
| Render.DisableSystemClockAsWritten | src/SparkFun_Alphanumeric_Display.cpp:292-301 | `disableSystemClock` as written, whose loop calls `enableSystemClockSingle`. DisableAsWrittenEnables shows it is `EnableSystemClock`. |
| Render.DisableSystemClock | src/SparkFun_Alphanumeric_Display.cpp:292-301 | Corrected: `disableSystemClock` with the standby call its name promises. DisableSendsStandby shows every chip gets the standby command. |
| Render.SetBrightness | src/SparkFun_Alphanumeric_Display.cpp:354-363 | `setBrightness`. BrightnessCommands shows every chip gets the dimming command with the duty clamped to 15, and nothing but the log changes. |
| Render.SetBlinkRate | src/SparkFun_Alphanumeric_Display.cpp:377-386 | `setBlinkRate`. ChainCommands shows it stores the code `BlinkCodeFor` picks once and sends every chip the display setup with it. |
| Render.SetDisplayPower | src/SparkFun_Alphanumeric_Display.cpp:434-462 | `displayOn` / `displayOff`. DisplayPowerCommands shows it stores the on/off code and sends every chip the display setup. |
| Render.SetDecimals | src/SparkFun_Alphanumeric_Display.cpp:495-523 | Corrected: `decimalOn` / `decimalOff` with an "off" that clears bit 0. ChainStatus shows bit 0 of every chip's decimal byte is the requested state afterwards. |
| Render.SetColons | src/SparkFun_Alphanumeric_Display.cpp:555-581 | Corrected: `colonOn` / `colonOff` with an "off" that clears bit 0. ChainStatus shows bit 0 of every chip's colon byte is the requested state afterwards. |
| Render.DisableAsWrittenEnables | src/SparkFun_Alphanumeric_Display.cpp:292-301 | `disableSystemClock` as written is `enableSystemClock`: it sends every chip the oscillator-on command. |
| Render.DisableSendsStandby | src/SparkFun_Alphanumeric_Display.cpp:312-317 | The corrected `disableSystemClock` sends every chip the standby command. |
| Render.DisplayPowerCommands | src/SparkFun_Alphanumeric_Display.cpp:422-462 | `displayOn` / `displayOff` store the on/off code. They send every chip the display setup with the stored blink code and that on/off code. |
| Render.BrightnessCommands | src/SparkFun_Alphanumeric_Display.cpp:354-372 | `setBrightness` changes only the log: it sends every chip the dimming command with the duty clamped to 15. |
| Render.ChainStatus | src/SparkFun_Alphanumeric_Display.cpp:495-581 | After `decimalOn`/`Off` or `colonOn`/`Off` over chips 0..i-1, bit 0 of each of those chips' status byte is the requested state. Bits 1..7 of those bytes and every other byte of the image are unchanged. |
| Render.PrintChar | src/SparkFun_Alphanumeric_Display.cpp:643-673 | `printChar` keeps the cursor, the content and the overrides. |
| Render.Advance | src/SparkFun_Alphanumeric_Display.cpp:756-757 | The cursor stays below 4n, and moves to the next digit or wraps to 0 after the last one. |
| Render.StatusRamKeepsEven | src/SparkFun_Alphanumeric_Display.cpp:657-662 | Lighting the decimal point or colon of the cursor's chip changes no even byte. |
| Render.PrintCharRam | src/SparkFun_Alphanumeric_Display.cpp:643-673 | `printChar`'s image is the status step for '.' or ':' at the cursor's chip, followed by the glyph (override first) painted at the digit argument. |
| Render.PrintShows | src/SparkFun_Alphanumeric_Display.cpp:643-673 | After `printChar(c, digit)`, `digit` shows its old segments plus c's glyph, and every other digit shows what it showed before. |
| Render.PrintNeverClears | src/SparkFun_Alphanumeric_Display.cpp:643-673 | `printChar` never clears a bit of the image. |
| Render.WriteStep | src/SparkFun_Alphanumeric_Display.cpp:749-758 | `write(b)` before its flush. It keeps the driver state well formed; WritePeriod, WriteColon and StreamStepPlain state what it does for '.', ':' and other bytes. |
| Render.WritePeriod | src/SparkFun_Alphanumeric_Display.cpp:749-761 | `write('.')` keeps the cursor and the content, and lights the decimal point of the cursor's chip. Unless '.' has an override, it changes what no digit shows. |
| Render.WriteColon | src/SparkFun_Alphanumeric_Display.cpp:749-761 | `write(':')` keeps the cursor and the content, and lights the colon of the cursor's chip. Unless ':' has an override, it changes what no digit shows. |
| Render.WriteByte | src/SparkFun_Alphanumeric_Display.cpp:749-761 | `write(b)`: the step, then the flush. The content and the overrides are kept. |
| Render.StreamStep | src/SparkFun_Alphanumeric_Display.cpp:780-793 | One iteration of `write(buffer, size)`'s loop. It keeps the state well formed and the overrides; StreamStepPlain and StreamStepCursor state its effect. |
| Render.StreamStepCursor | src/SparkFun_Alphanumeric_Display.cpp:780-793 | One byte of the loop moves the cursor to the next digit, wrapping to 0, iff it is neither '.' nor ':'. |
| Render.Stream | src/SparkFun_Alphanumeric_Display.cpp:778-794 | `write(buffer, size)`'s loop. StreamCursor, StreamContent and StreamShows state where the cursor ends, what the content records and what the digits show. |
| Render.PlainBytes | src/SparkFun_Alphanumeric_Display.cpp:778-794 | The bytes of a buffer that take a digit: every byte but '.' and ':', in order. None of them is '.' or ':', and there are at most as many as bytes. |
| Render.PlainBytesOfPlain | src/SparkFun_Alphanumeric_Display.cpp:778-794 | A buffer without '.' or ':' is all plain bytes. |
| Render.After | src/SparkFun_Alphanumeric_Display.cpp:756-757 | The digit n advances of the cursor reach from digit c. It is always a digit of the chain. |
| Render.AfterIsMod | src/SparkFun_Alphanumeric_Display.cpp:790-792 | n advances from c reach `(c + n) % (numberOfDisplays * 4)`, the source's formula. |
| Render.StreamStepPlain | src/SparkFun_Alphanumeric_Display.cpp:786-793 | For a byte other than '.' or ':', the digit under the cursor gains the byte's glyph and no other digit changes. The byte is recorded under the cursor, and the cursor advances. |
| Render.StreamCursor | src/SparkFun_Alphanumeric_Display.cpp:778-794 | Streaming any bytes moves the cursor one digit, wrapping at the end of the chain, for every byte other than '.' and ':'. So the cursor ends at (cursor + number of such bytes) mod 4n. |
| Render.StreamContent | src/SparkFun_Alphanumeric_Display.cpp:778-794 | The j-th byte other than '.' and ':' is recorded in the slot j advances after the cursor. When the stream wraps, the last 4n such bytes are the ones kept. Slots that no such byte reached, and slots past the chain, are unchanged. |
| Render.StreamShows | src/SparkFun_Alphanumeric_Display.cpp:776-794 | Streaming onto blank digits, when the bytes other than '.' and ':' fit from the cursor and every '.' and ':' has a blank glyph (the table's, unless overridden): digit cursor+x shows exactly the glyph of the x-th such byte, and every other digit shows what it showed before. Texts such as "12:34" and "3.14" are covered; wrapping streams and overridden '.' or ':' are covered by StreamLit. |
| Render.StreamShowsSpecial | src/SparkFun_Alphanumeric_Display.cpp:782-785 | A '.' or ':' whose glyph is blank changes what no digit shows. |
| Render.NoOverrideSpecialsBlank | src/SparkFun_Alphanumeric_Display.cpp:643-671 | Without an override for '.' or ':', every '.' and ':' of a stream has the blank glyph. |
| Render.Landing | src/SparkFun_Alphanumeric_Display.cpp:778-794 | The digit byte k of a stream is painted on: digit 0 for '.' and ':', otherwise the digit reached after as many advances as there are other bytes before it. It is a digit of the chain. |
| Render.StreamLit | src/SparkFun_Alphanumeric_Display.cpp:778-794 | For any bytes, including '.', ':', overrides and streams that wrap: segment j of digit d is lit afterwards iff it was lit before or some byte landing on d has segment j in its glyph. A wrapped digit shows the union of every glyph painted on it, since nothing clears it. |
| Render.BlankedShowsNothing | src/SparkFun_Alphanumeric_Display.cpp:342-351 | After the zeroing loop of `clear`, no digit of the chain shows a segment. |
| Render.Clear | src/SparkFun_Alphanumeric_Display.cpp:342-351 | `clear` resets the cursor to 0 and keeps the content and the overrides. BlankedShowsNothing shows no digit of the chain is lit afterwards. |
| Render.WriteBufferContent | src/SparkFun_Alphanumeric_Display.cpp:767-799 | For any buffer, `write(buffer, size)` records the j-th byte other than '.' and ':' in slot j mod 4n, keeping the last 4n of them. Slots from the number of such bytes on are unchanged. The cursor ends at that number mod 4n. |
| Render.WriteBufferFits | src/SparkFun_Alphanumeric_Display.cpp:767-799 | For at most 4n bytes without '.' or ':', the text is recorded from slot 0, later slots are unchanged, and the cursor ends after the text. |
| Render.WriteBufferShows | src/SparkFun_Alphanumeric_Display.cpp:767-799 | When the bytes other than '.' and ':' number at most 4n and every '.' and ':' has a blank glyph (the table's, unless overridden): after `write(buffer, size)`, digit x shows exactly the glyph of the x-th such byte, and the digits after them are blank. |
| Render.WriteBufferLit | src/SparkFun_Alphanumeric_Display.cpp:767-799 | For any buffer: segment j of a chain digit d is lit after `write(buffer, size)` iff some byte landing on d, counted from digit 0, has segment j in its glyph. A buffer longer than 4n leaves each digit showing the union of the glyphs written to it. |
| Render.WriteBuffer | src/SparkFun_Alphanumeric_Display.cpp:767-799 | `write(buffer, size)`: blank, stream, flush. It keeps the state well formed; WriteBufferContent, WriteBufferFits and WriteBufferShows state its effect. |
| Render.CString | src/SparkFun_Alphanumeric_Display.cpp:802-807 | `strlen` counts a prefix with no 0 byte, which is followed by a 0 when it is shorter than the array. |
| Render.CStringStopsAtZero | src/SparkFun_Alphanumeric_Display.cpp:802-807 | The counted string never reaches past a 0 byte. |
| Render.CStringOfPlain | src/SparkFun_Alphanumeric_Display.cpp:802-807 | The counted string of a content without '.' or ':' has none either. |
| Render.Rerender | src/SparkFun_Alphanumeric_Display.cpp:802-807 | `print(displayContent)`. RerenderKeepsContent and RerenderShows state its content, cursor, result and what the digits show. |
| Render.RerenderKeepsContent | src/SparkFun_Alphanumeric_Display.cpp:802-807 | `print(displayContent)` leaves the content unchanged and the cursor after the string. It returns true iff the string is non-empty. The content never holds '.' or ':', because the state invariant `Wf` excludes them. |
| Render.RerenderShows | src/SparkFun_Alphanumeric_Display.cpp:802-807 | After the re-render, digit x shows exactly the glyph of content slot x up to the string's end, and nothing after it, in every well-formed state. |
| Render.ShiftRightThenLeft | src/SparkFun_Alphanumeric_Display.cpp:830-869 | Shifting right, as intended, and then left by k restores the first 4n-k digits and blanks the rest. |
| Render.ShiftLeftThenRight | src/SparkFun_Alphanumeric_Display.cpp:830-869 | Shifting left and then right, as intended, by k restores digits k..4n-1 and blanks the first k. |
| Render.ShiftRightByOne | src/SparkFun_Alphanumeric_Display.cpp:832-844 | For a shift by one, `shiftRight` as written equals the intended shift. |
| Render.ShiftRightAsWrittenKeepsTail | src/SparkFun_Alphanumeric_Display.cpp:832-844 | "ABCD" shifted right by two reads "  AD" as written and "  AB" as intended. |
| Render.ShiftLeftExample | src/SparkFun_Alphanumeric_Display.cpp:850-869 | "TEST" shifted left by one reads "EST ". |
| Render.ShiftedLeft | src/SparkFun_Alphanumeric_Display.cpp:852-866 | `shiftLeft`'s content update: slot x takes slot x+k, and the last k digits become ' '. It keeps the content free of '.' and ':'. ShiftRightThenLeft and ShiftLeftThenRight are its round trips with `ShiftedRight`; ShiftLeftExample is the "TEST" case. |
| Render.ShiftedRight | src/SparkFun_Alphanumeric_Display.cpp:832-844 | Corrected: `shiftRight`'s content update as intended: slot x takes slot x-k, and the first k digits become ' '. It keeps the content free of '.' and ':'. Its round trips with `ShiftedLeft` are ShiftRightThenLeft and ShiftLeftThenRight. |
| Render.ShiftedRightAsWritten | src/SparkFun_Alphanumeric_Display.cpp:832-844 | `shiftRight`'s content update as written: only slots x with x+k <= 4n are copied or blanked. ShiftRightByOne and ShiftRightAsWrittenKeepsTail compare it with the intended update. |
| Render.ShiftLeft | src/SparkFun_Alphanumeric_Display.cpp:850-869 | `shiftLeft`: the content update, then `print(displayContent)`. Since the shifted content is again free of '.' and ':', RerenderKeepsContent and RerenderShows apply to it: the content becomes the shifted content and the digits show it. |
| Render.ShiftRight | src/SparkFun_Alphanumeric_Display.cpp:830-847 | Corrected: `shiftRight` with the intended content update, then `print(displayContent)`. |
| Render.Connect | src/SparkFun_Alphanumeric_Display.cpp:201-224 | The probe loop changes nothing but the log, to which it only appends. |
| Render.ConnectSpec | src/SparkFun_Alphanumeric_Display.cpp:201-224 | The probe loop sends only probes to the chip's address. It stops and returns true at the first acknowledged probe, and otherwise returns false after `tries` unanswered probes. |
| Render.ConnectAnswered | src/SparkFun_Alphanumeric_Display.cpp:201-224 | `isConnected` returns true iff one of the next twenty transactions is acknowledged. |
| Render.IsConnected | src/SparkFun_Alphanumeric_Display.cpp:201-224 | `isConnected`: only the log changes. ConnectSpec and ConnectAnswered state its probes and its result. |
| Render.ConnectFrom | src/SparkFun_Alphanumeric_Display.cpp:167-180 | `begin`'s check loop changes nothing but the log. |
| Render.InitializeAcks | src/SparkFun_Alphanumeric_Display.cpp:226-257 | `initialize` returns true iff every transaction it made was acknowledged. |
| Render.Initialize | src/SparkFun_Alphanumeric_Display.cpp:226-257 | `initialize`. It keeps the state well formed; InitializeAcks and InitializeTraffic state its result and its traffic. |
| Render.InitializeTraffic | src/SparkFun_Alphanumeric_Display.cpp:226-257 | A successful `initialize` stores the display-on code and the code `setBlinkRate` gives for `ALPHA_BLINK_RATE_NOBLINK`; that is the no-blink code unless the no-blink code is 1 or 2. It changes nothing else but the log. It sends every chip, in rounds: oscillator on, dimming 15, display setup with the previous on/off code, display setup with display on. |
| Render.BeginShowsBlank | src/SparkFun_Alphanumeric_Display.cpp:146-197 | After a successful `begin`, the cursor is on digit 0, every digit of the chain is blank, the content is as before, and the display is on. |
| Render.Begin | src/SparkFun_Alphanumeric_Display.cpp:167-197 | `begin` after its address bookkeeping. It keeps the state well formed; BeginShowsBlank states what a successful run leaves. |
| Display.Ht16k33.constructor | src/SparkFun_Alphanumeric_Display.cpp:146-161 | The object remembers the four addresses and counts the chips as `ChipCount` does. It starts zeroed, with an empty override list and log. |
| Display.Ht16k33.Transmit | src/SparkFun_Alphanumeric_Display.cpp:907-928 | One transaction is appended to the log, and the result is the oracle's answer for it. |
| Display.Ht16k33.WriteRam | src/SparkFun_Alphanumeric_Display.cpp:907-936 | `writeRAM` is one transaction of the address, the register and the data. |
| Display.Ht16k33.IsConnected | src/SparkFun_Alphanumeric_Display.cpp:201-224 | The retry loop leaves the object as `Render.IsConnected` says. |
| Display.Ht16k33.UpdateDisplay | src/SparkFun_Alphanumeric_Display.cpp:810-827 | The loop over chips leaves the object as `Flush` says: the blocks are sent in order, nothing else changes, and the result is true iff all were acknowledged. |
| Display.Ht16k33.Blank | src/SparkFun_Alphanumeric_Display.cpp:345-348 | The zeroing loop clears exactly bytes 0..16n-1 and resets the cursor. |
| Display.Ht16k33.Clear | src/SparkFun_Alphanumeric_Display.cpp:342-351 | `clear` zeroes the chain's bytes, resets the cursor, and then flushes. |
| Display.Ht16k33.SetBrightnessSingle | src/SparkFun_Alphanumeric_Display.cpp:365-372 | One dimming command with the clamped duty to the chip's address. |
| Display.Ht16k33.EnableSystemClockSingle | src/SparkFun_Alphanumeric_Display.cpp:303-310 | One oscillator-on command to the chip. |
| Display.Ht16k33.DisableSystemClockSingle | src/SparkFun_Alphanumeric_Display.cpp:312-317 | One standby command to the chip. |
| Display.Ht16k33.SetBlinkRateSingle | src/SparkFun_Alphanumeric_Display.cpp:388-410 | Stores the blink code for the rate, then sends the display setup with it and the stored on/off code. |
| Display.Ht16k33.SetDisplayOnOff | src/SparkFun_Alphanumeric_Display.cpp:422-431 | Stores the on/off code, then sends the display setup with the stored blink code and that code. |
| Display.Ht16k33.SetDecimalOnOff | src/SparkFun_Alphanumeric_Display.cpp:474-492 | Corrected: stores the decimal code, sets or clears bit 0 of byte 3 of the chip's block (the intended write), then flushes. |
| Display.Ht16k33.SetColonOnOff | src/SparkFun_Alphanumeric_Display.cpp:535-553 | Corrected: stores the colon code, sets or clears bit 0 of byte 1 of the chip's block (the intended write), then flushes. |
| Display.Ht16k33.RunChain | src/SparkFun_Alphanumeric_Display.cpp:354-363 | The chain-wide loop makes the per-chip call on chips 0..n-1 and ANDs the results. |
| Display.Ht16k33.EnableSystemClock | src/SparkFun_Alphanumeric_Display.cpp:281-290 | `enableSystemClock` leaves the object as `Render.EnableSystemClock` says. |
| Display.Ht16k33.DisableSystemClock | src/SparkFun_Alphanumeric_Display.cpp:292-301 | Corrected: `disableSystemClock` with the standby call, leaving the object as `Render.DisableSystemClock` says. |
| Display.Ht16k33.SetBrightness | src/SparkFun_Alphanumeric_Display.cpp:354-363 | `setBrightness` leaves the object as `Render.SetBrightness` says. |
| Display.Ht16k33.SetBlinkRate | src/SparkFun_Alphanumeric_Display.cpp:377-386 | `setBlinkRate` leaves the object as `Render.SetBlinkRate` says. |
| Display.Ht16k33.SetDisplayPower | src/SparkFun_Alphanumeric_Display.cpp:434-462 | `displayOn` / `displayOff` leave the object as `Render.SetDisplayPower` says. |
| Display.Ht16k33.SetDecimals | src/SparkFun_Alphanumeric_Display.cpp:495-523 | Corrected: `decimalOn` / `decimalOff` with the intended "off", leaving the object as `Render.SetDecimals` says. |
| Display.Ht16k33.SetColons | src/SparkFun_Alphanumeric_Display.cpp:555-581 | Corrected: `colonOn` / `colonOff` with the intended "off", leaving the object as `Render.SetColons` says. |
| Display.Ht16k33.IlluminateSegment | src/SparkFun_Alphanumeric_Display.cpp:586-630 | ORs the bit `SegmentAddress` gives into its byte; nothing else changes. |
| Display.Ht16k33.IlluminateChar | src/SparkFun_Alphanumeric_Display.cpp:633-640 | The segment loop over bits 0..13 leaves the image `Paint` gives. |
| Display.Ht16k33.GetSegmentsToTurnOn | src/SparkFun_Alphanumeric_Display.cpp:720-743 | The list walk returns `SegmentsToTurnOn` of the override list. |
| Display.Ht16k33.DefineChar | src/SparkFun_Alphanumeric_Display.cpp:676-717 | The override list and the result are those `Define` gives; nothing else changes, and the object stays valid. |
| Display.Ht16k33.PrintChar | src/SparkFun_Alphanumeric_Display.cpp:643-673 | `printChar` leaves the object as `Render.PrintChar` says. |
| Display.Ht16k33.PlaceByte | src/SparkFun_Alphanumeric_Display.cpp:752-758 | '.' and ':' are painted at digit 0. Any other byte is painted at the cursor, which then advances modulo 4n. |
| Display.Ht16k33.WriteByte | src/SparkFun_Alphanumeric_Display.cpp:749-761 | `write(b)` places the byte, flushes, and returns 1 iff the flush succeeded, else 0. |
| Display.Ht16k33.StreamByte | src/SparkFun_Alphanumeric_Display.cpp:780-793 | One iteration of `write(buffer, size)`'s loop leaves the object as `StreamStep` says. |
| Display.Ht16k33.WriteBuffer | src/SparkFun_Alphanumeric_Display.cpp:767-799 | `write(buffer, size)` blanks the image, streams the bytes and flushes. It returns `size` whatever the flush reports. |
| Display.Ht16k33.PrintContent | src/SparkFun_Alphanumeric_Display.cpp:802-807 | `print(displayContent)` is `write` of the content's C string; the result is true iff that string is non-empty. |
| Display.Ht16k33.MoveContentLeft | src/SparkFun_Alphanumeric_Display.cpp:852-857 | Slot x takes old slot x+k for every x with x+k <= 4n; every other slot is kept. |
| Display.Ht16k33.BlankLastDigits | src/SparkFun_Alphanumeric_Display.cpp:860-866 | The last min(k, 4n) digits become ' '; every other slot is kept. |
| Display.Ht16k33.ShiftLeft | src/SparkFun_Alphanumeric_Display.cpp:850-869 | `shiftLeft(k)` gives slot x old slot x+k when x+k < 4n and ' ' otherwise, for every k, and then re-renders. |
| Display.Ht16k33.MoveContentRight | src/SparkFun_Alphanumeric_Display.cpp:832-835 | Corrected: every slot x in k..4n-1 takes old slot x-k; the others are kept. |
| Display.Ht16k33.BlankFirstDigits | src/SparkFun_Alphanumeric_Display.cpp:838-844 | Corrected: the first min(k, 4n) digits become ' '; the others are kept. As written, the loop stops once x + k > 4n. |
| Display.Ht16k33.ShiftRight | src/SparkFun_Alphanumeric_Display.cpp:830-847 | Corrected: `shiftRight(k)` gives ' ' for the first k digits and old slot x-k from there on, then re-renders. |
| Display.Ht16k33.Initialize | src/SparkFun_Alphanumeric_Display.cpp:226-257 | `initialize` leaves the object as `Render.Initialize` says. |
| Display.Ht16k33.Begin | src/SparkFun_Alphanumeric_Display.cpp:167-197 | `begin` after its address bookkeeping leaves the object as `Render.Begin` says. |

## Left out

- I2C transport: `Wire` calls become the `ack` oracle, and the bytes written become `Transfer` values in the log. Timing, the `TwoWire` port and the `wirePort` argument are not modelled, and neither is `delay(1)` in `isConnected` and `enableSystemClockSingle`.
- `readRAM` (lines 873-896) is not used by the rest of the driver, and is not modelled.
- The commented-out `checkDeviceID` is not modelled.
- `setBlinkRate` takes a `float`; the model takes a `real`. Not-a-number and rounding are not modelled. The equality tests against 2, 1 and 0.5 are exact in both.
- PROGMEM and `pgm_read_word_near` are not modelled: the table is a constant sequence.
- The `calloc`-allocated override list is a sequence that `DefineChar` appends to. Allocation failure is not modelled; the source ignores it as well.
- `write(const char *)`: only its use by `print(displayContent)` is modelled, as `PrintContent`. The NULL check and the Arduino `Print` plumbing are not.
- `PrintContent` reads the content into a value before writing. The source passes `displayContent` itself while `write` updates it; since `write` only records bytes it has already read, the result is the same.
- `write(b)` increments the cursor before `printChar` runs (a post-increment in its argument), and the model advances it after. `printChar` reads the cursor only for '.' and ':', which take the other branch, so the two orders cannot be told apart.
- `Display.Ht16k33.SetDecimalOnOff` and `SetColonOnOff` require a chip number below 4. The source indexes `displayRAM` without a check, and a larger number is outside the array.
- `Display.Ht16k33.GetSegmentsToTurnOn` requires an index below 96. The source reads the table without a check; `printChar`, its only caller, never passes more.
- `Display.Ht16k33.constructor`: the source object is a zero-initialised global. The constructor builds that state and performs `begin`'s address bookkeeping; the rest of `begin` is `Begin`.
- The header constants have no values here, so facts that depend on them (for example "the display-on code is 1") are stated under explicit assumptions on the codes (`DimmingFields`, `DisplayFields`, `SystemFields`).
- Display.Ht16k33.SetDecimalOnOff, SetColonOnOff, SetDecimals, SetColons, DisableSystemClock, MoveContentRight, BlankFirstDigits and ShiftRight run the corrected behaviour of the Findings rows, not the code as written. The status calls clear bit 0 for "off" where the source ORs in 0. `disableSystemClock` sends standby where the source calls `enableSystemClockSingle`. The right shift copies every slot and blanks the first min(k, 4n) where the source stops early. The code as written is modelled only by `Ram.OrStatus`, `Render.DisableSystemClockAsWritten` and `Render.ShiftedRightAsWritten`.
- The shifts are modelled with the corrected `shiftRight` (see Findings). Over-large amounts are modelled only as `ShiftedRightAsWritten`'s precondition: a shift of 0 loops forever, and a shift past 4n makes the unsigned start index wrap.

## Findings

| source | as written | input that shows it | evidently intended | confidence | as-written member | corrected member |
|---|---|---|---|---|---|---|
| src/SparkFun_Alphanumeric_Display.cpp:832-844 | `shiftRight(k)` copies only slots k..4n-k, and blanks only slots x with x+k <= 4n; slots above 4n-k keep their old value | one chip showing "ABCD", `shiftRight(2)`: shows "  AD" | "  AB": slot x takes slot x-k for x in k..4n-1, and the first k slots become ' ' | not executed | Render.ShiftRightAsWrittenKeepsTail | Render.ShiftRightThenLeft |
| src/SparkFun_Alphanumeric_Display.cpp:486-490 | `setDecimalOnOff(n, false)` and `setColonOnOff(n, false)` OR 0 into the status byte, which changes nothing | `decimalOn()` then `decimalOff()`: the decimal points stay lit | "off" clears bit 0 of the status byte | not executed | Ram.OrStatusOffIsNoOp | Render.ChainStatus |
| src/SparkFun_Alphanumeric_Display.cpp:292-301 | `disableSystemClock` calls `enableSystemClockSingle` on every chip | `disableSystemClock()` on any chain: every chip gets the oscillator-on command | every chip gets the standby command of `disableSystemClockSingle` | not executed | Render.DisableAsWrittenEnables | Render.DisableSendsStandby |

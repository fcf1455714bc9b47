/**
 * The driver object `HT16K33`: the RAM image and the content shadow are
 * arrays updated in place, the cursor, the override list and the stored
 * codes are fields, and every bus transaction is appended to `log`. Each
 * method is proved to leave the object in the state, and return the
 * result, that the matching function of `Render` gives.
 */
module Display {
  import opened Glyphs
  import opened Wiring
  import opened Ram
  import opened Commands
  import opened Render

  class Ht16k33 {
    /** The four chip addresses, left to right, and how many chips `begin` counted. */
    const addresses: seq<Byte>
    const numberOfDisplays: nat
    /** The bus's answer to transaction number t. */
    const ack: nat -> bool

    const displayRAM: array<bv8>
    const displayContent: array<Byte>
    var digitPosition: nat
    /** `pCharDefList`, head first. */
    var charDefs: seq<CharDef>
    var decimalOnOff: bv8
    var colonOnOff: bv8
    var blinkRate: bv8
    var displayOnOff: bv8
    /** Every bus transaction so far, oldest first. */
    var log: seq<Transfer>

    function Cfg(): Config {
      Config(addresses, numberOfDisplays, ack)
    }

    function State(): Frame
      reads this, displayRAM, displayContent
    {
      Frame(displayRAM[..], displayContent[..], digitPosition, charDefs,
            decimalOnOff, colonOnOff, blinkRate, displayOnOff, log)
    }

    predicate Valid()
      reads this, displayRAM, displayContent
    {
      displayRAM.Length == RamBytes && displayContent.Length == ContentSlots &&
      Wf(Cfg(), State())
    }

    /**
     * The address bookkeeping of `begin`: remember the four addresses and
     * count the chips from the rightmost attached one. The object starts
     * zeroed, as a statically allocated one does.
     */
    constructor(addressLeft: Byte, addressLeftCenter: Byte, addressRightCenter: Byte, addressRight: Byte,
                ack: nat -> bool)
      ensures Valid()
      ensures addresses == [addressLeft, addressLeftCenter, addressRightCenter, addressRight]
      ensures numberOfDisplays == ChipCount(addresses)
      ensures this.ack == ack
      ensures State() == Frame(seq(RamBytes, _ => 0), seq(ContentSlots, _ => 0), 0, [], 0, 0, 0, 0, [])
    {
      addresses := [addressLeft, addressLeftCenter, addressRightCenter, addressRight];
      if addressRight != NothingAttached {
        numberOfDisplays := 4;
      } else if addressRightCenter != NothingAttached {
        numberOfDisplays := 3;
      } else if addressLeftCenter != NothingAttached {
        numberOfDisplays := 2;
      } else {
        numberOfDisplays := 1;
      }
      this.ack := ack;
      displayRAM := new bv8[RamBytes](_ => 0);
      displayContent := new Byte[ContentSlots](_ => 0);
      digitPosition := 0;
      charDefs := [];
      decimalOnOff, colonOnOff, blinkRate, displayOnOff := 0, 0, 0, 0;
      log := [];
    }

    /** One bus transaction (`beginTransmission` .. `endTransmission`), answered by the oracle. */
    method Transmit(t: Transfer) returns (ok: bool)
      requires Valid()
      modifies this
      ensures Valid()
      ensures Outcome(State(), ok) == Send(Cfg(), old(State()), t)
    {
      ok := ack(|log|);
      log := log + [t];
    }

    /** `writeRAM`: the register byte and the data bytes to one chip address. */
    method WriteRam(address: Byte, register: bv8, data: seq<bv8>) returns (ok: bool)
      requires Valid()
      modifies this
      ensures Valid()
      ensures Outcome(State(), ok) == Send(Cfg(), old(State()), Transfer(address, register, data))
    {
      ok := Transmit(Transfer(address, register, data));
    }

    /** `isConnected`: probe the chip up to twenty times, true at the first acknowledged probe. */
    method IsConnected(displayNumber: nat) returns (ok: bool)
      requires Valid()
      modifies this
      ensures Valid()
      ensures Outcome(State(), ok) == Render.IsConnected(Cfg(), old(State()), displayNumber)
    {
      var x := 0;
      while x < ConnectTries
        invariant 0 <= x <= ConnectTries && Valid()
        invariant Render.IsConnected(Cfg(), old(State()), displayNumber) ==
                  Connect(Cfg(), State(), displayNumber, ConnectTries - x)
      {
        var answered := Transmit(Probe(LookUpDisplayAddress(addresses, displayNumber)));
        if answered {
          return true;
        }
        x := x + 1;
      }
      return false;
    }

    /** `updateDisplay`: each chip's sixteen bytes, results ANDed. */
    method UpdateDisplay() returns (ok: bool)
      requires Valid()
      modifies this
      ensures Valid()
      ensures Outcome(State(), ok) == Flush(Cfg(), old(State()))
    {
      ok := true;
      var i := 0;
      while i < numberOfDisplays
        invariant 0 <= i <= numberOfDisplays && Valid()
        invariant Outcome(State(), ok) == FlushChips(Cfg(), old(State()), i)
      {
        var sent := WriteRam(LookUpDisplayAddress(addresses, i), 0,
                             displayRAM[BytesPerChip * i .. BytesPerChip * i + BytesPerChip]);
        if !sent {
          ok := false;
        }
        i := i + 1;
      }
      FlushChipsSpec(Cfg(), old(State()), numberOfDisplays);
    }

    /** The zeroing loop over bytes 0..16n-1 and the cursor reset of `clear` and `write(buffer, size)`. */
    method Blank()
      requires Valid()
      modifies this, displayRAM
      ensures Valid()
      ensures State() == Blanked(Cfg(), old(State()))
    {
      var i := 0;
      while i < BytesPerChip * numberOfDisplays
        invariant 0 <= i <= BytesPerChip * numberOfDisplays && Valid()
        invariant State() == old(State()).(ram := ZeroPrefix(old(displayRAM[..]), i))
      {
        displayRAM[i] := 0;
        i := i + 1;
      }
      digitPosition := 0;
    }

    /** `clear`. */
    method Clear() returns (ok: bool)
      requires Valid()
      modifies this, displayRAM
      ensures Valid()
      ensures Outcome(State(), ok) == Render.Clear(Cfg(), old(State()))
    {
      Blank();
      ok := UpdateDisplay();
    }

    /** `setBrightnessSingle`. */
    method SetBrightnessSingle(displayNumber: nat, duty: Byte) returns (ok: bool)
      requires Valid()
      modifies this
      ensures Valid()
      ensures Outcome(State(), ok) == Single(Cfg(), old(State()), displayNumber, Brightness(duty))
    {
      SingleCommand(Cfg(), State(), displayNumber, Brightness(duty));
      var dataToWrite := DimmingCommand(duty);
      ok := WriteRam(LookUpDisplayAddress(addresses, displayNumber), dataToWrite, []);
    }

    /** `enableSystemClockSingle`. */
    method EnableSystemClockSingle(displayNumber: nat) returns (ok: bool)
      requires Valid()
      modifies this
      ensures Valid()
      ensures Outcome(State(), ok) == Single(Cfg(), old(State()), displayNumber, SystemClock(true))
    {
      ok := WriteRam(LookUpDisplayAddress(addresses, displayNumber), SystemSetup | 1, []);
    }

    /** `disableSystemClockSingle`. */
    method DisableSystemClockSingle(displayNumber: nat) returns (ok: bool)
      requires Valid()
      modifies this
      ensures Valid()
      ensures Outcome(State(), ok) == Single(Cfg(), old(State()), displayNumber, SystemClock(false))
    {
      ok := WriteRam(LookUpDisplayAddress(addresses, displayNumber), SystemSetup | 0, []);
    }

    /** `setBlinkRateSingle`. */
    method SetBlinkRateSingle(displayNumber: nat, rate: real) returns (ok: bool)
      requires Valid()
      modifies this
      ensures Valid()
      ensures Outcome(State(), ok) == Single(Cfg(), old(State()), displayNumber, BlinkRate(rate))
    {
      ghost var p := Prepared(State(), displayNumber, BlinkRate(rate));
      SingleCommand(Cfg(), State(), displayNumber, BlinkRate(rate));
      var code: bv8;
      if rate == 2.0 {
        code := Blink2HzCode;
      } else if rate == 1.0 {
        code := Blink1HzCode;
      } else if rate == 0.5 {
        code := BlinkHalfHzCode;
      } else {
        code := NoBlinkCode;
      }
      assert code == BlinkCodeFor(rate);
      blinkRate := code;
      assert State() == p;
      var dataToWrite := DisplayCommand(blinkRate, displayOnOff);
      assert dataToWrite == Code(p, BlinkRate(rate));
      ok := WriteRam(LookUpDisplayAddress(addresses, displayNumber), dataToWrite, []);
    }

    /** `setDisplayOnOff`. */
    method SetDisplayOnOff(displayNumber: nat, turnOnDisplay: bool) returns (ok: bool)
      requires Valid()
      modifies this
      ensures Valid()
      ensures Outcome(State(), ok) == Single(Cfg(), old(State()), displayNumber, DisplayPower(turnOnDisplay))
    {
      ghost var p := Prepared(State(), displayNumber, DisplayPower(turnOnDisplay));
      SingleCommand(Cfg(), State(), displayNumber, DisplayPower(turnOnDisplay));
      if turnOnDisplay {
        displayOnOff := DisplayOnCode;
      } else {
        displayOnOff := DisplayOffCode;
      }
      assert State() == p;
      var dataToWrite := DisplayCommand(blinkRate, displayOnOff);
      assert dataToWrite == Code(p, DisplayPower(turnOnDisplay));
      ok := WriteRam(LookUpDisplayAddress(addresses, displayNumber), dataToWrite, []);
    }

    /**
     * `setDecimalOnOff` with the intended status write: "on" sets bit 0 of
     * byte 3 of the chip's block, "off" clears it; then the image is flushed.
     */
    method SetDecimalOnOff(displayNumber: nat, turnOnDecimal: bool) returns (ok: bool)
      requires Valid() && displayNumber < MaxChips
      modifies this, displayRAM
      ensures Valid()
      ensures Outcome(State(), ok) == Single(Cfg(), old(State()), displayNumber, DecimalLed(turnOnDecimal))
    {
      var adr := 3 + displayNumber * BytesPerChip;
      if turnOnDecimal {
        decimalOnOff := DecimalOnCode;
        displayRAM[adr] := displayRAM[adr] | 1;
      } else {
        decimalOnOff := DecimalOffCode;
        displayRAM[adr] := displayRAM[adr] & 0xFE;
      }
      ok := UpdateDisplay();
    }

    /** `setColonOnOff`, with the intended status write on byte 1 of the chip's block. */
    method SetColonOnOff(displayNumber: nat, turnOnColon: bool) returns (ok: bool)
      requires Valid() && displayNumber < MaxChips
      modifies this, displayRAM
      ensures Valid()
      ensures Outcome(State(), ok) == Single(Cfg(), old(State()), displayNumber, ColonLed(turnOnColon))
    {
      var adr := 1 + displayNumber * BytesPerChip;
      if turnOnColon {
        colonOnOff := ColonOnCode;
        displayRAM[adr] := displayRAM[adr] | 1;
      } else {
        colonOnOff := ColonOffCode;
        displayRAM[adr] := displayRAM[adr] & 0xFE;
      }
      ok := UpdateDisplay();
    }

    /** The per-chip call a chain-wide loop makes. */
    method RunSingle(chip: nat, op: ChipOp) returns (ok: bool)
      requires Valid() && (IsCommand(op) || chip < MaxChips)
      modifies this, displayRAM
      ensures Valid()
      ensures Outcome(State(), ok) == Single(Cfg(), old(State()), chip, op)
    {
      match op
      case SystemClock(on) =>
        if on {
          ok := EnableSystemClockSingle(chip);
        } else {
          ok := DisableSystemClockSingle(chip);
        }
      case Brightness(duty) => ok := SetBrightnessSingle(chip, duty);
      case BlinkRate(rate) => ok := SetBlinkRateSingle(chip, rate);
      case DisplayPower(on) => ok := SetDisplayOnOff(chip, on);
      case DecimalLed(on) => ok := SetDecimalOnOff(chip, on);
      case ColonLed(on) => ok := SetColonOnOff(chip, on);
    }

    /** One pass of the chain-wide loop: the call on chip `i`, its result ANDed into `status`. */
    method ChainNext(ghost start: Frame, i: nat, op: ChipOp, status: bool) returns (ok: bool)
      requires Valid() && Wf(Cfg(), start) && i < numberOfDisplays
      requires Outcome(State(), status) == Chain(Cfg(), start, i, op)
      modifies this, displayRAM
      ensures Valid()
      ensures Outcome(State(), ok) == Chain(Cfg(), start, i + 1, op)
    {
      ChainStep(Cfg(), start, i, op);
      var r := RunSingle(i, op);
      ok := status && r;
    }

    /** The chain-wide loop: the per-chip call on chips 0..n-1, `status` cleared by any failure. */
    method RunChain(op: ChipOp) returns (ok: bool)
      requires Valid()
      modifies this, displayRAM
      ensures Valid()
      ensures Outcome(State(), ok) == Chain(Cfg(), old(State()), numberOfDisplays, op)
    {
      ghost var start := State();
      ok := true;
      var i := 0;
      while i < numberOfDisplays
        invariant 0 <= i <= numberOfDisplays && Valid()
        invariant Outcome(State(), ok) == Chain(Cfg(), start, i, op)
      {
        ok := ChainNext(start, i, op, ok);
        i := i + 1;
      }
    }

    /** `enableSystemClock`. */
    method EnableSystemClock() returns (ok: bool)
      requires Valid()
      modifies this, displayRAM
      ensures Valid()
      ensures Outcome(State(), ok) == Render.EnableSystemClock(Cfg(), old(State()))
    {
      ok := RunChain(SystemClock(true));
    }

    /** `disableSystemClock`, calling `disableSystemClockSingle` on every chip. */
    method DisableSystemClock() returns (ok: bool)
      requires Valid()
      modifies this, displayRAM
      ensures Valid()
      ensures Outcome(State(), ok) == Render.DisableSystemClock(Cfg(), old(State()))
    {
      ok := RunChain(SystemClock(false));
    }

    /** `setBrightness`. */
    method SetBrightness(duty: Byte) returns (ok: bool)
      requires Valid()
      modifies this, displayRAM
      ensures Valid()
      ensures Outcome(State(), ok) == Render.SetBrightness(Cfg(), old(State()), duty)
    {
      ok := RunChain(Brightness(duty));
    }

    /** `setBlinkRate`. */
    method SetBlinkRate(rate: real) returns (ok: bool)
      requires Valid()
      modifies this, displayRAM
      ensures Valid()
      ensures Outcome(State(), ok) == Render.SetBlinkRate(Cfg(), old(State()), rate)
    {
      ok := RunChain(BlinkRate(rate));
    }

    /** `displayOn` (true) and `displayOff` (false). */
    method SetDisplayPower(turnOn: bool) returns (ok: bool)
      requires Valid()
      modifies this, displayRAM
      ensures Valid()
      ensures Outcome(State(), ok) == Render.SetDisplayPower(Cfg(), old(State()), turnOn)
    {
      displayOnOff := if turnOn then DisplayOnCode else DisplayOffCode;
      ok := RunChain(DisplayPower(turnOn));
    }

    /** `decimalOn` (true) and `decimalOff` (false). */
    method SetDecimals(turnOn: bool) returns (ok: bool)
      requires Valid()
      modifies this, displayRAM
      ensures Valid()
      ensures Outcome(State(), ok) == Render.SetDecimals(Cfg(), old(State()), turnOn)
    {
      decimalOnOff := if turnOn then DecimalOnCode else DecimalOffCode;
      ok := RunChain(DecimalLed(turnOn));
    }

    /** `colonOn` (true) and `colonOff` (false). */
    method SetColons(turnOn: bool) returns (ok: bool)
      requires Valid()
      modifies this, displayRAM
      ensures Valid()
      ensures Outcome(State(), ok) == Render.SetColons(Cfg(), old(State()), turnOn)
    {
      colonOnOff := if turnOn then ColonOnCode else ColonOffCode;
      ok := RunChain(ColonLed(turnOn));
    }

    /** `illuminateSegment`: OR the segment's bit into its byte of the image. */
    method IlluminateSegment(segment: Byte, digit: nat)
      requires Valid() && SegA <= segment <= SegN && digit < MaxDigits
      modifies displayRAM
      ensures Valid()
      ensures State() == old(State()).(ram := SetBit(old(displayRAM[..]), SegmentAddress(segment, digit)))
    {
      var com := segment - SegA;
      if com > 6 {
        com := com - 7;
      }
      if segment == SegI {
        com := 0;
      }
      if segment == SegH {
        com := 1;
      }
      var row := digit % 4;
      if segment > SegG {
        row := row + 4;
      }
      var offset := digit / 4 * 16;
      var adr := com * 2 + offset;
      if row > 7 {
        adr := adr + 1;
      }
      if row > 7 {
        row := row - 8;
      }
      var dat: bv8 := 1 << row;
      displayRAM[adr] := displayRAM[adr] | dat;
    }

    /** `illuminateChar`: the segment loop over bits 0..13 of the mask. */
    method IlluminateChar(segmentsToTurnOn: bv16, digit: nat)
      requires Valid() && digit < MaxDigits
      modifies displayRAM
      ensures Valid()
      ensures State() == old(State()).(ram := Paint(old(displayRAM[..]), segmentsToTurnOn, digit))
    {
      var i := 0;
      while i < SegmentCount
        invariant 0 <= i <= SegmentCount && Valid()
        invariant State() == old(State()).(ram := PaintSegs(old(displayRAM[..]), segmentsToTurnOn, digit, i))
      {
        if (segmentsToTurnOn >> i) & 1 == 1 {
          IlluminateSegment(SegA + i, digit);
        }
        i := i + 1;
      }
    }

    /** `getSegmentsToTurnOn`: walk the override list from its head, else read the table. */
    method GetSegmentsToTurnOn(charPos: nat) returns (segments: bv16)
      requires charPos < TableSize
      ensures segments == SegmentsToTurnOn(charDefs, charPos)
    {
      var k := 0;
      while k < |charDefs| && charDefs[k].position != charPos
        invariant 0 <= k <= |charDefs|
        invariant forall j :: 0 <= j < k ==> charDefs[j].position != charPos
      {
        k := k + 1;
      }
      TableFacts();
      if k < |charDefs| {
        segments := charDefs[k].segments;
      } else {
        segments := Segs[charPos];
      }
    }

    /** `defineChar`: append (index, segments & 0x3FFF) at the tail for '!'..'~'. */
    method DefineChar(displayChar: Byte, segmentsToTurnOn: bv16) returns (result: bool)
      requires Valid()
      modifies this
      ensures Valid()
      ensures (charDefs, result) == Define(old(charDefs), displayChar, segmentsToTurnOn)
      ensures State() == old(State()).(defs := charDefs)
    {
      result := false;
      if FirstPrintable <= displayChar <= LastPrintable {
        var characterPosition := displayChar - FirstPrintable + 1;
        charDefs := charDefs + [CharDef(characterPosition, segmentsToTurnOn & SegmentBits)];
        result := true;
      }
    }

    /** `printChar`. */
    method PrintChar(displayChar: Byte, digit: nat)
      requires Valid() && digit < MaxDigits
      modifies this, displayRAM
      ensures Valid()
      ensures State() == Render.PrintChar(Cfg(), old(State()), displayChar, digit)
    {
      var characterPosition := 65532;
      if displayChar == Space {
        characterPosition := 0;
      } else if FirstPrintable <= displayChar <= LastPrintable {
        characterPosition := displayChar - FirstPrintable + 1;
      }
      var dispNum := digitPosition / 4;
      if characterPosition == DecimalIndex {
        var _ := SetDecimalOnOff(dispNum, true);
      }
      if characterPosition == ColonIndex {
        var _ := SetColonOnOff(dispNum, true);
      }
      if characterPosition == 65532 {
        characterPosition := UnknownChar;
      }
      var segmentsToTurnOn := GetSegmentsToTurnOn(characterPosition);
      IlluminateChar(segmentsToTurnOn, digit);
    }

    /** `write(b)`: returns 1 if the flush succeeded, 0 otherwise. */
    method WriteByte(b: Byte) returns (n: nat)
      requires Valid()
      modifies this, displayRAM
      ensures Valid()
      ensures n <= 1
      ensures Outcome(State(), n == 1) == Render.WriteByte(Cfg(), old(State()), b)
    {
      PlaceByte(b);
      var ok := UpdateDisplay();
      n := if ok then 1 else 0;
    }

    /** `write(b)` up to its flush: '.' and ':' at digit 0, anything else at the cursor, which moves on. */
    method PlaceByte(b: Byte)
      requires Valid()
      modifies this, displayRAM
      ensures Valid()
      ensures State() == WriteStep(Cfg(), old(State()), b)
    {
      if b == Period || b == Colon {
        PrintChar(b, 0);
      } else {
        ghost var cur := digitPosition;
        PrintChar(b, digitPosition);
        ghost var h := State();
        digitPosition := (digitPosition + 1) % (4 * numberOfDisplays);
        AdvanceMod(Cfg(), cur);
        assert State() == h.(cursor := Advance(Cfg(), cur));
      }
    }

    /** One byte of `write(buffer, size)`'s loop. */
    method StreamByte(buff: Byte)
      requires Valid()
      modifies this, displayRAM, displayContent
      ensures Valid()
      ensures State() == StreamStep(Cfg(), old(State()), buff)
    {
      if buff == Period {
        PrintChar(Period, 0);
      } else if buff == Colon {
        PrintChar(Colon, 0);
      } else {
        ghost var cur := digitPosition;
        PrintChar(buff, digitPosition);
        ghost var h := State();
        displayContent[digitPosition] := buff;
        digitPosition := (digitPosition + 1) % (4 * numberOfDisplays);
        AdvanceMod(Cfg(), cur);
        assert State() == h.(content := h.content[cur := buff], cursor := Advance(Cfg(), cur));
      }
    }

    /** `write(buffer, size)`: returns the size whatever the flush reports. */
    method WriteBuffer(buffer: seq<Byte>) returns (n: nat)
      requires Valid()
      modifies this, displayRAM, displayContent
      ensures Valid()
      ensures n == |buffer|
      ensures State() == Render.WriteBuffer(Cfg(), old(State()), buffer)
    {
      Blank();
      ghost var start := State();
      var i := 0;
      while i < |buffer|
        invariant 0 <= i <= |buffer| && Valid()
        invariant State() == Stream(Cfg(), start, buffer[..i])
      {
        StreamByte(buffer[i]);
        assert buffer[..i + 1][..i] == buffer[..i];
        i := i + 1;
      }
      assert buffer[..i] == buffer;
      var _ := UpdateDisplay();
      n := |buffer|;
    }

    /** `print(displayContent)`: `write` of the C string in the content; true iff it was non-empty. */
    method PrintContent() returns (ok: bool)
      requires Valid()
      modifies this, displayRAM, displayContent
      ensures Valid()
      ensures Outcome(State(), ok) == Rerender(Cfg(), old(State()))
    {
      var n := WriteBuffer(CString(displayContent[..]));
      ok := n != 0;
    }

    /** `shiftLeft`'s first loop: slot x takes slot x+k while x+k does not pass the chain's end. */
    method MoveContentLeft(shiftAmt: Byte)
      requires Valid()
      modifies displayContent
      ensures Valid()
      ensures State() == old(State()).(content := displayContent[..])
      ensures forall j :: 0 <= j < ContentSlots ==>
                displayContent[j] ==
                if j < 4 * numberOfDisplays && j + shiftAmt <= 4 * numberOfDisplays then old(displayContent[j + shiftAmt])
                else old(displayContent[j])
    {
      var digits := 4 * numberOfDisplays;
      var x := 0;
      while x < digits
        invariant 0 <= x <= digits && Valid()
        invariant x > 0 ==> x - 1 + shiftAmt <= digits
        invariant State() == old(State()).(content := displayContent[..])
        invariant forall j :: 0 <= j < ContentSlots ==>
                    displayContent[j] == if j < x then old(displayContent[j + shiftAmt]) else old(displayContent[j])
      {
        if x + shiftAmt > digits {
          break;
        }
        displayContent[x] := displayContent[x + shiftAmt];
        x := x + 1;
      }
    }

    /** `shiftLeft`'s second loop: the last k digits of the chain become ' '. */
    method BlankLastDigits(shiftAmt: Byte)
      requires Valid()
      modifies displayContent
      ensures Valid()
      ensures State() == old(State()).(content := displayContent[..])
      ensures forall j :: 0 <= j < ContentSlots ==>
                displayContent[j] ==
                if 4 * numberOfDisplays - shiftAmt <= j < 4 * numberOfDisplays then Space else old(displayContent[j])
    {
      var digits := 4 * numberOfDisplays;
      var x := 0;
      while x < shiftAmt
        invariant 0 <= x <= shiftAmt && Valid()
        invariant State() == old(State()).(content := displayContent[..])
        invariant forall j :: 0 <= j < ContentSlots ==>
                    displayContent[j] == if digits - x <= j < digits then Space else old(displayContent[j])
      {
        if digits - 1 - x < 0 {
          break;
        }
        displayContent[digits - 1 - x] := Space;
        x := x + 1;
      }
    }

    /** `shiftLeft`: move the content k slots left, blank the last k digits, re-render. */
    method ShiftLeft(shiftAmt: Byte) returns (ok: bool)
      requires Valid()
      modifies this, displayRAM, displayContent
      ensures Valid()
      ensures Outcome(State(), ok) == Render.ShiftLeft(Cfg(), old(State()), shiftAmt)
    {
      ghost var digits := 4 * numberOfDisplays;
      assert digits == Digits(Cfg());
      ghost var s0 := displayContent[..];
      MoveContentLeft(shiftAmt);
      ghost var s1 := displayContent[..];
      BlankLastDigits(shiftAmt);
      ghost var shifted := ShiftedLeft(s0, digits, shiftAmt);
      forall j | 0 <= j < ContentSlots
        ensures displayContent[j] == shifted[j]
      {
        if digits - shiftAmt <= j < digits {
          assert displayContent[j] == Space;
        } else {
          assert displayContent[j] == s1[j];
        }
      }
      assert displayContent[..] == shifted;
      ok := PrintContent();
    }

    /** The corrected first loop of `shiftRight`: slots 4n-1 down to k take the slot k to their left. */
    method MoveContentRight(shiftAmt: Byte)
      requires Valid()
      modifies displayContent
      ensures Valid()
      ensures State() == old(State()).(content := displayContent[..])
      ensures forall j :: 0 <= j < ContentSlots ==>
                displayContent[j] ==
                if shiftAmt <= j < 4 * numberOfDisplays then old(displayContent[j - shiftAmt]) else old(displayContent[j])
    {
      var digits := 4 * numberOfDisplays;
      var x := digits - 1;
      while x >= shiftAmt
        invariant x <= digits - 1 && (shiftAmt - 1 <= x || x == digits - 1) && Valid()
        invariant State() == old(State()).(content := displayContent[..])
        invariant forall j :: 0 <= j < ContentSlots ==>
                    displayContent[j] == if x < j < digits then old(displayContent[j - shiftAmt]) else old(displayContent[j])
      {
        displayContent[x] := displayContent[x - shiftAmt];
        x := x - 1;
      }
    }

    /** `shiftRight`'s second loop, bounded by the chain: the first k digits become ' '. */
    method BlankFirstDigits(shiftAmt: Byte)
      requires Valid()
      modifies displayContent
      ensures Valid()
      ensures State() == old(State()).(content := displayContent[..])
      ensures forall j :: 0 <= j < ContentSlots ==>
                displayContent[j] == if j < shiftAmt && j < 4 * numberOfDisplays then Space else old(displayContent[j])
    {
      var digits := 4 * numberOfDisplays;
      var x := 0;
      while x < shiftAmt
        invariant 0 <= x <= shiftAmt && x <= digits && Valid()
        invariant State() == old(State()).(content := displayContent[..])
        invariant forall j :: 0 <= j < ContentSlots ==>
                    displayContent[j] == if j < x then Space else old(displayContent[j])
      {
        if x >= digits {
          break;
        }
        displayContent[x] := Space;
        x := x + 1;
      }
    }

    /** `shiftRight` with the corrected copy loop: move the content k slots right, blank the first k digits, re-render. */
    method ShiftRight(shiftAmt: Byte) returns (ok: bool)
      requires Valid()
      modifies this, displayRAM, displayContent
      ensures Valid()
      ensures Outcome(State(), ok) == Render.ShiftRight(Cfg(), old(State()), shiftAmt)
    {
      ghost var digits := 4 * numberOfDisplays;
      assert digits == Digits(Cfg());
      ghost var s0 := displayContent[..];
      MoveContentRight(shiftAmt);
      ghost var s1 := displayContent[..];
      BlankFirstDigits(shiftAmt);
      ghost var shifted := ShiftedRight(s0, digits, shiftAmt);
      forall j | 0 <= j < ContentSlots
        ensures displayContent[j] == shifted[j]
      {
        if j < shiftAmt && j < digits {
          assert displayContent[j] == Space;
        } else {
          assert displayContent[j] == s1[j];
        }
      }
      assert displayContent[..] == shifted;
      ok := PrintContent();
    }

    /** `initialize`: clock on, full brightness, no blinking, display on; stop at the first failure. */
    method Initialize() returns (ok: bool)
      requires Valid()
      modifies this, displayRAM
      ensures Valid()
      ensures Outcome(State(), ok) == Render.Initialize(Cfg(), old(State()))
    {
      ok := EnableSystemClock();
      if !ok {
        return;
      }
      ok := SetBrightness(16);
      if !ok {
        return;
      }
      ok := SetBlinkRate(NoBlinkCode as int as real);
      if !ok {
        return;
      }
      ok := SetDisplayPower(true);
    }

    /** `begin` after the address bookkeeping: check every chip, initialize, clear, terminate the content string. */
    method Begin() returns (ok: bool)
      requires Valid()
      modifies this, displayRAM, displayContent
      ensures Valid()
      ensures Outcome(State(), ok) == Render.Begin(Cfg(), old(State()))
    {
      var i := 0;
      while i < numberOfDisplays
        invariant 0 <= i <= numberOfDisplays && Valid()
        invariant ConnectFrom(Cfg(), old(State()), 0) == ConnectFrom(Cfg(), State(), i)
      {
        var connected := IsConnected(i);
        if !connected {
          return false;
        }
        i := i + 1;
      }
      ok := Initialize();
      if !ok {
        return;
      }
      ok := Clear();
      if !ok {
        return;
      }
      displayContent[4 * 4] := 0;
      ok := true;
    }
  }
}

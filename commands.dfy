/**
 * Command bytes and chip addressing of the HT16K33 chain: how many chips
 * `begin` counts, which bus address each chip number resolves to, and the
 * single-byte commands for the system oscillator, the dimming duty and the
 * display/blink setup.
 *
 * The values of the command codes and of the "nothing attached" address
 * live in the library's header, which is not part of this model: they are
 * declared here without a value, so every lemma holds whatever they are.
 */
module Commands {
  import opened Glyphs

  /** Address passed for a position of the chain that has no chip. */
  const NothingAttached: Byte

  /** Command register codes (high bits of the command byte). */
  const SystemSetup: bv8
  const DisplaySetup: bv8
  const DimmingSetup: bv8

  /** Codes stored in `displayOnOff`. */
  const DisplayOnCode: bv8
  const DisplayOffCode: bv8

  /** Codes stored in `blinkRate`. */
  const NoBlinkCode: bv8
  const Blink2HzCode: bv8
  const Blink1HzCode: bv8
  const BlinkHalfHzCode: bv8

  /** Codes stored in `decimalOnOff` and `colonOnOff` (written, never read). */
  const DecimalOnCode: bv8
  const DecimalOffCode: bv8
  const ColonOnCode: bv8
  const ColonOffCode: bv8

  /** Largest dimming duty the chip accepts. */
  const MaxDuty: Byte := 15

  /**
   * One bus transaction: the chip address, the register (or command) byte
   * and the data bytes that follow it (a command is a transaction with no
   * data), or `isConnected`'s probe, an address with nothing after it.
   */
  datatype Transfer =
    | Transfer(address: Byte, register: bv8, data: seq<bv8>)
    | Probe(address: Byte)

  /**
   * `begin`'s chip count from the four addresses left..right: one more than
   * the position of the rightmost attached chip among positions 1..3, and
   * at least one. Every position at or after the count is unattached.
   */
  function ChipCount(addresses: seq<Byte>): (n: nat)
    requires |addresses| == 4
    ensures 1 <= n <= 4
    ensures forall k :: n <= k < 4 ==> addresses[k] == NothingAttached
    ensures n >= 2 ==> addresses[n - 1] != NothingAttached
  {
    if addresses[3] != NothingAttached then 4
    else if addresses[2] != NothingAttached then 3
    else if addresses[1] != NothingAttached then 2
    else 1
  }

  /** The two properties of `ChipCount` pin it down: no other count has both. */
  lemma ChipCountUnique(addresses: seq<Byte>, m: nat)
    requires |addresses| == 4 && 1 <= m <= 4
    requires forall k :: m <= k < 4 ==> addresses[k] == NothingAttached
    requires m >= 2 ==> addresses[m - 1] != NothingAttached
    ensures m == ChipCount(addresses)
  {
  }

  /** `lookUpDisplayAddress`: chips 0..3 resolve to the left..right address, anything else to 0. */
  function LookUpDisplayAddress(addresses: seq<Byte>, chip: nat): (a: Byte)
    requires |addresses| == 4
    ensures chip < 4 ==> a == addresses[chip]
    ensures chip >= 4 ==> a == 0
  {
    if chip == 0 then addresses[0]
    else if chip == 1 then addresses[1]
    else if chip == 2 then addresses[2]
    else if chip == 3 then addresses[3]
    else 0
  }

  /** `setBrightnessSingle`'s command byte: the dimming register with the duty clamped to 15. */
  function DimmingCommand(duty: Byte): bv8 {
    DimmingSetup | (if duty > MaxDuty then MaxDuty else duty) as bv8
  }

  /**
   * When the dimming code leaves the low nibble free, the command carries
   * the code in its high nibble and min(duty, 15) in its low nibble.
   */
  lemma DimmingFields(duty: Byte)
    requires DimmingSetup & 0x0F == 0
    ensures DimmingCommand(duty) & 0xF0 == DimmingSetup
    ensures (DimmingCommand(duty) & 0x0F) as int == if duty > MaxDuty then MaxDuty else duty
  {
    var d: bv8 := (if duty > MaxDuty then MaxDuty else duty) as bv8;
    assert d <= 15;
    assert d & 0xF0 == 0 && d & 0x0F == d;
  }

  /** Every duty above 15 sends the same command as 15. */
  lemma DimmingSaturates(duty: Byte)
    requires duty >= MaxDuty
    ensures DimmingCommand(duty) == DimmingCommand(MaxDuty)
  {
  }

  /**
   * `setDisplayOnOff` / `setBlinkRateSingle`'s command byte: the display
   * setup register OR the blink code shifted left by one OR the on/off code,
   * truncated to eight bits.
   */
  function DisplayCommand(blink: bv8, onOff: bv8): bv8 {
    DisplaySetup | (blink << 1) | onOff
  }

  /**
   * With header codes that fit their fields (setup code in the top five
   * bits, blink code below 4, on/off below 2), the command byte can be read
   * back field by field.
   */
  lemma DisplayFields(blink: bv8, onOff: bv8)
    requires DisplaySetup & 0x07 == 0 && blink < 4 && onOff < 2
    ensures DisplayCommand(blink, onOff) & 0xF8 == DisplaySetup
    ensures (DisplayCommand(blink, onOff) >> 1) & 0x03 == blink
    ensures DisplayCommand(blink, onOff) & 0x01 == onOff
  {
  }

  /** `enableSystemClockSingle` (on) and `disableSystemClockSingle` (standby)'s command byte. */
  function SystemCommand(on: bool): bv8 {
    SystemSetup | (if on then 1 else 0)
  }

  /** With a system-setup code whose bit 0 is free, bit 0 of the command is the oscillator state. */
  lemma SystemFields(on: bool)
    requires SystemSetup & 1 == 0
    ensures SystemCommand(on) & 0xFE == SystemSetup
    ensures (SystemCommand(on) & 1 == 1) <==> on
  {
  }

  /**
   * `setBlinkRateSingle`'s choice of blink code: 2, 1 and 0.5 Hz select
   * their codes and every other rate means no blinking. The `float`
   * parameter is a `real`; the comparisons are exact in both.
   */
  function BlinkCodeFor(rate: real): (code: bv8)
    ensures code in {Blink2HzCode, Blink1HzCode, BlinkHalfHzCode, NoBlinkCode}
    ensures rate !in {2.0, 1.0, 0.5} ==> code == NoBlinkCode
  {
    if rate == 2.0 then Blink2HzCode
    else if rate == 1.0 then Blink1HzCode
    else if rate == 0.5 then BlinkHalfHzCode
    else NoBlinkCode
  }

  /**
   * With four distinct blink codes, the code `setBlinkRateSingle` picks
   * tells the rate class back: each blinking code comes from exactly its
   * rate, and the no-blink code from every other rate.
   */
  lemma BlinkCodeSelects(rate: real)
    requires Blink2HzCode != Blink1HzCode && Blink2HzCode != BlinkHalfHzCode && Blink1HzCode != BlinkHalfHzCode
    requires NoBlinkCode !in {Blink2HzCode, Blink1HzCode, BlinkHalfHzCode}
    ensures BlinkCodeFor(rate) == Blink2HzCode <==> rate == 2.0
    ensures BlinkCodeFor(rate) == Blink1HzCode <==> rate == 1.0
    ensures BlinkCodeFor(rate) == BlinkHalfHzCode <==> rate == 0.5
    ensures BlinkCodeFor(rate) == NoBlinkCode <==> rate !in {2.0, 1.0, 0.5}
  {
  }
}

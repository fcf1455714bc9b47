/**
 * The driver's whole state as a value (`Frame`), and one function per
 * operation giving the state and result it produces: the flush of the RAM
 * image to the chips, the per-chip commands and the chain-wide loops that
 * AND their results, `printChar`, both `write` overloads, `clear` and the
 * two shifts of the content shadow. The class in `Display` is proved
 * against these functions; the lemmas here say what they guarantee.
 *
 * The bus is an oracle: transaction number t of the run (its index in the
 * log) is acknowledged iff `ack(t)`.
 */
module Render {
  import opened Glyphs
  import opened Wiring
  import opened Ram
  import opened Commands

  /** Size of `displayContent`: sixteen digits and the terminator `begin` writes at index 16. */
  const ContentSlots: nat := 17

  /** What `begin` fixes: the four addresses, the chip count, and the bus's answers. */
  datatype Config = Config(addresses: seq<Byte>, chips: nat, ack: nat -> bool)

  predicate ValidConfig(cfg: Config) {
    |cfg.addresses| == 4 && cfg.chips == ChipCount(cfg.addresses)
  }

  /** Digits of the chain, 4 per chip (`numberOfDisplays * 4`). */
  function Digits(cfg: Config): nat
    requires ValidConfig(cfg)
  {
    4 * cfg.chips
  }

  /**
   * The driver's fields: `displayRAM`, `displayContent`, `digitPosition`,
   * the override list, the stored decimal/colon/blink/on-off codes, and
   * the log of bus transactions so far.
   */
  datatype Frame = Frame(
    ram: seq<bv8>,
    content: seq<Byte>,
    cursor: nat,
    defs: seq<CharDef>,
    decimal: bv8,
    colon: bv8,
    blink: bv8,
    onOff: bv8,
    log: seq<Transfer>)

  /**
   * Well-formed state: the buffer sizes, the cursor on a digit of the
   * chain, the content slots past the chain's digits (including the
   * terminator at 16) holding 0, so `strlen` stops inside the array, and
   * no '.' or ':' in the content: `write(buffer, size)` records only the
   * other bytes, and the shifts only move slots and write ' '.
   */
  predicate Wf(cfg: Config, f: Frame) {
    ValidConfig(cfg) && |f.ram| == RamBytes && |f.content| == ContentSlots &&
    f.cursor < Digits(cfg) &&
    (forall k :: Digits(cfg) <= k < ContentSlots ==> f.content[k] == 0) &&
    Plain(f.content)
  }

  /** A state and the `bool` an operation returns. */
  datatype Outcome = Outcome(frame: Frame, ok: bool)

  /** Every transaction numbered lo..hi-1 was acknowledged. */
  predicate AllAcked(cfg: Config, lo: nat, hi: nat) {
    forall t :: lo <= t < hi ==> cfg.ack(t)
  }

  /** `writeRAM`: one transaction, acknowledged as the oracle says. */
  function Send(cfg: Config, f: Frame, t: Transfer): Outcome {
    Outcome(f.(log := f.log + [t]), cfg.ack(|f.log|))
  }

  /** The sixteen RAM bytes of chip `chip`. */
  function Chunk(ram: seq<bv8>, chip: nat): seq<bv8>
    requires |ram| == RamBytes && chip < MaxChips
  {
    ram[16 * chip .. 16 * chip + 16]
  }

  /** `updateDisplay`'s loop after chips 0..i-1: one 16-byte write per chip, results ANDed. */
  function FlushChips(cfg: Config, f: Frame, i: nat): (o: Outcome)
    requires Wf(cfg, f) && i <= cfg.chips
    ensures o.frame == f.(log := o.frame.log)
    ensures |o.frame.log| == |f.log| + i && o.frame.log[..|f.log|] == f.log
  {
    if i == 0 then Outcome(f, true)
    else
      var prev := FlushChips(cfg, f, i - 1);
      var sent := Send(cfg, prev.frame,
                       Transfer(LookUpDisplayAddress(cfg.addresses, i - 1), 0, Chunk(prev.frame.ram, i - 1)));
      Outcome(sent.frame, prev.ok && sent.ok)
  }

  /** Reference for the flush traffic: chip k's address, register 0, chip k's sixteen bytes. */
  function FlushLog(cfg: Config, ram: seq<bv8>, i: nat): seq<Transfer>
    requires ValidConfig(cfg) && |ram| == RamBytes && i <= MaxChips
  {
    seq(i, k requires 0 <= k < i => Transfer(LookUpDisplayAddress(cfg.addresses, k), 0, Chunk(ram, k)))
  }

  /** The traffic for i chips is the traffic for i - 1 chips, then chip i - 1's block. */
  lemma FlushLogStep(cfg: Config, ram: seq<bv8>, i: nat)
    requires ValidConfig(cfg) && |ram| == RamBytes && 0 < i <= MaxChips
    ensures FlushLog(cfg, ram, i) ==
            FlushLog(cfg, ram, i - 1) + [Transfer(LookUpDisplayAddress(cfg.addresses, i - 1), 0, Chunk(ram, i - 1))]
  {
  }

  /**
   * `updateDisplay`, by what it does: every chip in order gets its own block
   * at register 0, nothing else changes, and the result is true iff every
   * one of those writes was acknowledged.
   */
  function Flush(cfg: Config, f: Frame): (o: Outcome)
    requires Wf(cfg, f)
    ensures o.frame == f.(log := o.frame.log)
    ensures |o.frame.log| == |f.log| + cfg.chips && o.frame.log[..|f.log|] == f.log
  {
    Outcome(f.(log := f.log + FlushLog(cfg, f.ram, cfg.chips)), AllAcked(cfg, |f.log|, |f.log| + cfg.chips))
  }

  /**
   * `updateDisplay`'s loop, chip by chip, does what `Flush` says: after i
   * chips it has sent each of them, in order, its own block at register 0,
   * changed nothing else, and its status is true iff every write was acknowledged.
   */
  lemma {:induction false} FlushChipsSpec(cfg: Config, f: Frame, i: nat)
    requires Wf(cfg, f) && i <= cfg.chips
    ensures FlushChips(cfg, f, i).frame == f.(log := f.log + FlushLog(cfg, f.ram, i))
    ensures FlushChips(cfg, f, i).ok <==> AllAcked(cfg, |f.log|, |f.log| + i)
  {
    if i > 0 {
      FlushChipsSpec(cfg, f, i - 1);
      FlushChipsStep(cfg, f, i);
    }
  }

  /** One more chip of the flush appends that chip's block and ANDs in its acknowledgement. */
  lemma FlushChipsStep(cfg: Config, f: Frame, i: nat)
    requires Wf(cfg, f) && 0 < i <= cfg.chips
    requires FlushChips(cfg, f, i - 1).frame == f.(log := f.log + FlushLog(cfg, f.ram, i - 1))
    ensures FlushChips(cfg, f, i).frame == f.(log := f.log + FlushLog(cfg, f.ram, i))
    ensures FlushChips(cfg, f, i).ok == (FlushChips(cfg, f, i - 1).ok && cfg.ack(|f.log| + i - 1))
  {
    FlushLogStep(cfg, f.ram, i);
  }

  /** One call on one chip, as the chain-wide loops make it. */
  datatype ChipOp =
    | SystemClock(on: bool)   // enableSystemClockSingle / disableSystemClockSingle
    | Brightness(duty: Byte)  // setBrightnessSingle
    | BlinkRate(rate: real)   // setBlinkRateSingle
    | DisplayPower(on: bool)  // setDisplayOnOff (displayOnSingle / displayOffSingle)
    | DecimalLed(on: bool)       // setDecimalOnOff (decimalOnSingle / decimalOffSingle)
    | ColonLed(on: bool)         // setColonOnOff (colonOnSingle / colonOffSingle)

  /** The single-byte command calls, as opposed to the two that rewrite the image and flush. */
  predicate IsCommand(op: ChipOp) {
    !op.DecimalLed? && !op.ColonLed?
  }

  /** The fields a per-chip call stores before it talks to the bus. */
  function Prepared(f: Frame, chip: nat, op: ChipOp): (g: Frame)
    requires |f.ram| == RamBytes && (IsCommand(op) || chip < MaxChips)
    ensures |g.ram| == RamBytes
    ensures g.cursor == f.cursor && g.content == f.content && g.defs == f.defs && g.log == f.log
  {
    match op
    case SystemClock(_) => f
    case Brightness(_) => f
    case BlinkRate(rate) => f.(blink := BlinkCodeFor(rate))
    case DisplayPower(on) => f.(onOff := if on then DisplayOnCode else DisplayOffCode)
    case DecimalLed(on) =>
      f.(decimal := if on then DecimalOnCode else DecimalOffCode,
         ram := SetStatus(f.ram, DecimalByte(chip), on))
    case ColonLed(on) =>
      f.(colon := if on then ColonOnCode else ColonOffCode,
         ram := SetStatus(f.ram, ColonByte(chip), on))
  }

  /** The command byte a command call sends, from the fields it has just stored. */
  function Code(f: Frame, op: ChipOp): bv8
    requires IsCommand(op)
  {
    match op
    case SystemClock(on) => SystemCommand(on)
    case Brightness(duty) => DimmingCommand(duty)
    case BlinkRate(_) => DisplayCommand(f.blink, f.onOff)
    case DisplayPower(_) => DisplayCommand(f.blink, f.onOff)
  }

  /** The command transaction for chip `chip`: its address and the command byte, no data. */
  function CommandTo(cfg: Config, chip: nat, code: bv8): Transfer
    requires ValidConfig(cfg)
  {
    Transfer(LookUpDisplayAddress(cfg.addresses, chip), code, [])
  }

  /**
   * One per-chip call: store its fields, then either send its command byte
   * to the chip, or (decimal point and colon) set the chip's status bit and
   * flush the whole image.
   */
  function Single(cfg: Config, f: Frame, chip: nat, op: ChipOp): (o: Outcome)
    requires Wf(cfg, f) && (IsCommand(op) || chip < MaxChips)
    ensures Wf(cfg, o.frame)
  {
    var g := Prepared(f, chip, op);
    assert Wf(cfg, g);
    if IsCommand(op) then Send(cfg, g, CommandTo(cfg, chip, Code(g, op)))
    else Flush(cfg, g)
  }

  /** What the per-chip and chain-wide calls leave alone: the cursor, the content, the overrides, and the log so far. */
  predicate Keeps(f: Frame, g: Frame) {
    g.cursor == f.cursor && g.content == f.content && g.defs == f.defs &&
    |f.log| <= |g.log| && g.log[..|f.log|] == f.log
  }

  lemma KeepsTransitive(f: Frame, g: Frame, h: Frame)
    requires Keeps(f, g) && Keeps(g, h)
    ensures Keeps(f, h)
  {
    assert h.log[..|f.log|] == h.log[..|g.log|][..|f.log|];
  }

  /** A per-chip call changes the RAM image only as its stored fields say, and only appends to the log. */
  lemma SingleKeeps(cfg: Config, f: Frame, chip: nat, op: ChipOp)
    requires Wf(cfg, f) && (IsCommand(op) || chip < MaxChips)
    ensures Keeps(f, Single(cfg, f, chip, op).frame)
    ensures Single(cfg, f, chip, op).frame.ram == Prepared(f, chip, op).ram
  {
  }

  /** A command call is one transaction: the command byte computed from the fields it stored. */
  lemma SingleCommand(cfg: Config, f: Frame, chip: nat, op: ChipOp)
    requires Wf(cfg, f) && IsCommand(op)
    ensures Single(cfg, f, chip, op) == Send(cfg, Prepared(f, chip, op), CommandTo(cfg, chip, Code(Prepared(f, chip, op), op)))
  {
  }

  /** A chain-wide loop after chips 0..i-1: the per-chip call on each, results ANDed. */
  function Chain(cfg: Config, f: Frame, i: nat, op: ChipOp): (o: Outcome)
    requires Wf(cfg, f) && i <= cfg.chips
    ensures Wf(cfg, o.frame)
  {
    if i == 0 then Outcome(f, true)
    else
      var prev := Chain(cfg, f, i - 1, op);
      var s := Single(cfg, prev.frame, i - 1, op);
      Outcome(s.frame, prev.ok && s.ok)
  }

  /** A chain-wide loop leaves the cursor, the content and the overrides alone, and only appends to the log. */
  lemma {:induction false} ChainKeeps(cfg: Config, f: Frame, i: nat, op: ChipOp)
    requires Wf(cfg, f) && i <= cfg.chips
    ensures Keeps(f, Chain(cfg, f, i, op).frame)
  {
    if i > 0 {
      ChainKeeps(cfg, f, i - 1, op);
      var prev := Chain(cfg, f, i - 1, op).frame;
      SingleKeeps(cfg, prev, i - 1, op);
      KeepsTransitive(f, prev, Single(cfg, prev, i - 1, op).frame);
    }
  }

  /** One more chip of a chain-wide loop. */
  lemma ChainStep(cfg: Config, f: Frame, i: nat, op: ChipOp)
    requires Wf(cfg, f) && i < cfg.chips
    ensures var prev := Chain(cfg, f, i, op);
            var s := Single(cfg, prev.frame, i, op);
            Chain(cfg, f, i + 1, op) == Outcome(s.frame, prev.ok && s.ok)
  {
  }

  /** A per-chip call succeeds iff every transaction it made was acknowledged. */
  lemma SingleAcks(cfg: Config, f: Frame, chip: nat, op: ChipOp)
    requires Wf(cfg, f) && (IsCommand(op) || chip < MaxChips)
    ensures Single(cfg, f, chip, op).ok <==> AllAcked(cfg, |f.log|, |Single(cfg, f, chip, op).frame.log|)
  {
  }

  /** A chain-wide loop returns true iff every transaction of every chip was acknowledged. */
  lemma {:induction false} ChainAcks(cfg: Config, f: Frame, i: nat, op: ChipOp)
    requires Wf(cfg, f) && i <= cfg.chips
    ensures var o := Chain(cfg, f, i, op);
            |f.log| <= |o.frame.log| && (o.ok <==> AllAcked(cfg, |f.log|, |o.frame.log|))
  {
    if i > 0 {
      ChainAcks(cfg, f, i - 1, op);
      AcksStep(cfg, |f.log|, Chain(cfg, f, i - 1, op), i - 1, op);
    }
  }

  /** One more per-chip call keeps "true iff every transaction since `lo` was acknowledged". */
  lemma AcksStep(cfg: Config, lo: nat, prev: Outcome, chip: nat, op: ChipOp)
    requires Wf(cfg, prev.frame) && (IsCommand(op) || chip < MaxChips)
    requires lo <= |prev.frame.log| && (prev.ok <==> AllAcked(cfg, lo, |prev.frame.log|))
    ensures var s := Single(cfg, prev.frame, chip, op);
            lo <= |s.frame.log| && (prev.ok && s.ok <==> AllAcked(cfg, lo, |s.frame.log|))
  {
    var s := Single(cfg, prev.frame, chip, op);
    SingleAcks(cfg, prev.frame, chip, op);
    SingleKeeps(cfg, prev.frame, chip, op);
    AllAckedSplit(cfg, lo, |prev.frame.log|, |s.frame.log|);
  }

  /** Reference for a command loop's traffic: the same command byte to chips 0..i-1 in order. */
  function CommandLog(cfg: Config, i: nat, code: bv8): seq<Transfer>
    requires ValidConfig(cfg)
  {
    seq(i, k requires 0 <= k < i => CommandTo(cfg, k, code))
  }

  /**
   * A command loop over i >= 1 chips stores the call's fields once and for
   * all, sends every chip 0..i-1 the same command byte in order, and changes
   * nothing else.
   */
  lemma {:induction false} ChainCommands(cfg: Config, f: Frame, i: nat, op: ChipOp)
    requires Wf(cfg, f) && 1 <= i <= cfg.chips && IsCommand(op)
    ensures Chain(cfg, f, i, op).frame ==
            Prepared(f, 0, op).(log := f.log + CommandLog(cfg, i, Code(Prepared(f, 0, op), op)))
  {
    var p := Prepared(f, 0, op);
    var code := Code(p, op);
    if i > 1 {
      ChainCommands(cfg, f, i - 1, op);
      ChainCommandStep(cfg, f, i, op, f.log + CommandLog(cfg, i - 1, code));
      assert CommandLog(cfg, i, code) == CommandLog(cfg, i - 1, code) + [CommandTo(cfg, i - 1, code)];
    } else {
      ChainCommandFirst(cfg, f, op);
      assert CommandLog(cfg, 1, code) == [CommandTo(cfg, 0, code)];
    }
  }

  /** The first chip of a command loop stores the call's fields and gets its command. */
  lemma ChainCommandFirst(cfg: Config, f: Frame, op: ChipOp)
    requires Wf(cfg, f) && IsCommand(op)
    ensures Chain(cfg, f, 1, op).frame ==
            Prepared(f, 0, op).(log := f.log + [CommandTo(cfg, 0, Code(Prepared(f, 0, op), op))])
  {
    assert Chain(cfg, f, 0, op).frame == f;
  }

  /** One more chip of a command loop appends that chip's command and stores nothing new. */
  lemma ChainCommandStep(cfg: Config, f: Frame, i: nat, op: ChipOp, log: seq<Transfer>)
    requires Wf(cfg, f) && 2 <= i <= cfg.chips && IsCommand(op)
    requires Chain(cfg, f, i - 1, op).frame == Prepared(f, 0, op).(log := log)
    ensures Chain(cfg, f, i, op).frame ==
            Prepared(f, 0, op).(log := log + [CommandTo(cfg, i - 1, Code(Prepared(f, 0, op), op))])
  {
    PreparedAgain(f, log, i - 1, op);
  }

  /** A command call repeated on another chip stores nothing new and sends the same byte. */
  lemma PreparedAgain(f: Frame, log: seq<Transfer>, chip: nat, op: ChipOp)
    requires |f.ram| == RamBytes && chip < MaxChips && IsCommand(op)
    ensures Prepared(Prepared(f, 0, op).(log := log), chip, op) == Prepared(f, 0, op).(log := log)
    ensures Code(Prepared(f, 0, op).(log := log), op) == Code(Prepared(f, 0, op), op)
  {
  }

  /** `enableSystemClock`. */
  function EnableSystemClock(cfg: Config, f: Frame): Outcome
    requires Wf(cfg, f)
  {
    Chain(cfg, f, cfg.chips, SystemClock(true))
  }

  /** `disableSystemClock` as written: its loop calls `enableSystemClockSingle`. */
  function DisableSystemClockAsWritten(cfg: Config, f: Frame): Outcome
    requires Wf(cfg, f)
  {
    Chain(cfg, f, cfg.chips, SystemClock(true))
  }

  /** `disableSystemClock` as intended: standby for every chip. */
  function DisableSystemClock(cfg: Config, f: Frame): Outcome
    requires Wf(cfg, f)
  {
    Chain(cfg, f, cfg.chips, SystemClock(false))
  }

  /**
   * As written, disabling the clock sends exactly what enabling it does: the
   * oscillator-on command to every chip, so no chip is ever put in standby.
   */
  lemma DisableAsWrittenEnables(cfg: Config, f: Frame)
    requires Wf(cfg, f)
    ensures DisableSystemClockAsWritten(cfg, f) == EnableSystemClock(cfg, f)
    ensures DisableSystemClockAsWritten(cfg, f).frame.log ==
            f.log + CommandLog(cfg, cfg.chips, SystemCommand(true))
  {
    ChainCommands(cfg, f, cfg.chips, SystemClock(true));
  }

  /** The corrected `disableSystemClock` sends the standby command to every chip. */
  lemma DisableSendsStandby(cfg: Config, f: Frame)
    requires Wf(cfg, f)
    ensures DisableSystemClock(cfg, f).frame.log ==
            f.log + CommandLog(cfg, cfg.chips, SystemCommand(false))
  {
    ChainCommands(cfg, f, cfg.chips, SystemClock(false));
  }

  /** `setBrightness`. */
  function SetBrightness(cfg: Config, f: Frame, duty: Byte): Outcome
    requires Wf(cfg, f)
  {
    Chain(cfg, f, cfg.chips, Brightness(duty))
  }

  /** `setBlinkRate`. */
  function SetBlinkRate(cfg: Config, f: Frame, rate: real): Outcome
    requires Wf(cfg, f)
  {
    Chain(cfg, f, cfg.chips, BlinkRate(rate))
  }

  /** `displayOn` / `displayOff`: store the code, then the per-chip call on every chip. */
  function SetDisplayPower(cfg: Config, f: Frame, on: bool): Outcome
    requires Wf(cfg, f)
  {
    Chain(cfg, f.(onOff := if on then DisplayOnCode else DisplayOffCode), cfg.chips, DisplayPower(on))
  }

  /** `decimalOn` / `decimalOff`. */
  function SetDecimals(cfg: Config, f: Frame, on: bool): Outcome
    requires Wf(cfg, f)
  {
    Chain(cfg, f.(decimal := if on then DecimalOnCode else DecimalOffCode), cfg.chips, DecimalLed(on))
  }

  /** `colonOn` / `colonOff`. */
  function SetColons(cfg: Config, f: Frame, on: bool): Outcome
    requires Wf(cfg, f)
  {
    Chain(cfg, f.(colon := if on then ColonOnCode else ColonOffCode), cfg.chips, ColonLed(on))
  }

  /**
   * `displayOn` / `displayOff` store the code and send every chip the
   * display-setup command with the stored blink code and that on/off code.
   */
  lemma DisplayPowerCommands(cfg: Config, f: Frame, on: bool)
    requires Wf(cfg, f)
    ensures SetDisplayPower(cfg, f, on).frame.onOff == (if on then DisplayOnCode else DisplayOffCode)
    ensures SetDisplayPower(cfg, f, on).frame.log ==
            f.log + CommandLog(cfg, cfg.chips, DisplayCommand(f.blink, if on then DisplayOnCode else DisplayOffCode))
  {
    var g := f.(onOff := if on then DisplayOnCode else DisplayOffCode);
    ChainCommands(cfg, g, cfg.chips, DisplayPower(on));
  }

  /** `setBrightness` sends every chip the dimming command with the duty clamped to 15. */
  lemma BrightnessCommands(cfg: Config, f: Frame, duty: Byte)
    requires Wf(cfg, f)
    ensures SetBrightness(cfg, f, duty).frame == f.(log := f.log + CommandLog(cfg, cfg.chips, DimmingCommand(duty)))
  {
    ChainCommands(cfg, f, cfg.chips, Brightness(duty));
  }

  /** The byte within each chip's 16 that a status call writes: 3 for the decimal point, 1 for the colon. */
  function StatusOffset(op: ChipOp): (off: nat)
    requires !IsCommand(op)
    ensures off < 16 && off % 2 == 1
  {
    if op.DecimalLed? then 3 else 1
  }

  /**
   * Byte `k` of the image `after` a status loop over chips 0..n-1 started
   * from `before`: on those chips' status byte, bit 0 is the requested state
   * and bits 1..7 are unchanged; every other byte is unchanged.
   */
  predicate StatusAfter(before: seq<bv8>, after: seq<bv8>, k: nat, n: nat, op: ChipOp)
    requires !IsCommand(op) && k < |before| && k < |after|
  {
    if k % 16 == StatusOffset(op) && k / 16 < n then
      (after[k] & 1 == 1) == op.on && after[k] & 0xFE == before[k] & 0xFE
    else after[k] == before[k]
  }

  /**
   * `decimalOn` / `decimalOff` / `colonOn` / `colonOff` after chips 0..i-1:
   * each of those chips shows the requested state of its decimal point or
   * colon, and nothing else in the image changes.
   */
  lemma {:induction false} ChainStatus(cfg: Config, f: Frame, i: nat, op: ChipOp)
    requires Wf(cfg, f) && i <= cfg.chips && !IsCommand(op)
    ensures forall k :: 0 <= k < RamBytes ==> StatusAfter(f.ram, Chain(cfg, f, i, op).frame.ram, k, i, op)
  {
    if i > 0 {
      ChainStatus(cfg, f, i - 1, op);
      StatusStep(cfg, f.ram, Chain(cfg, f, i - 1, op).frame, i - 1, i, op);
    }
  }

  /** One more chip of a status loop. */
  lemma StatusStep(cfg: Config, before: seq<bv8>, prev: Frame, chip: nat, n: nat, op: ChipOp)
    requires Wf(cfg, prev) && !IsCommand(op) && chip < MaxChips && n == chip + 1 && |before| == RamBytes
    requires forall k :: 0 <= k < RamBytes ==> StatusAfter(before, prev.ram, k, chip, op)
    ensures forall k :: 0 <= k < RamBytes ==> StatusAfter(before, Single(cfg, prev, chip, op).frame.ram, k, n, op)
  {
    SingleKeeps(cfg, prev, chip, op);
    var r := Single(cfg, prev, chip, op).frame.ram;
    var at := 16 * chip + StatusOffset(op);
    assert r == SetStatus(prev.ram, at, op.on);
    forall k | 0 <= k < RamBytes
      ensures StatusAfter(before, r, k, n, op)
    {
      assert StatusAfter(before, prev.ram, k, chip, op);
      if k == at {
        assert k % 16 == StatusOffset(op) && k / 16 == chip;
      } else {
        assert r[k] == prev.ram[k];
        assert k % 16 == StatusOffset(op) && k / 16 < n ==> k / 16 < chip;
      }
    }
  }

  /** The image with bytes 0..m-1 zeroed. */
  function ZeroPrefix(ram: seq<bv8>, m: nat): (r: seq<bv8>)
    ensures |r| == |ram|
  {
    seq(|ram|, k requires 0 <= k < |ram| => if k < m then 0 else ram[k])
  }

  /** The zeroing loop and cursor reset shared by `clear` and `write(buffer, size)`. */
  function Blanked(cfg: Config, f: Frame): (g: Frame)
    requires Wf(cfg, f)
    ensures Wf(cfg, g)
  {
    f.(ram := ZeroPrefix(f.ram, 16 * cfg.chips), cursor := 0)
  }

  /** `clear`. */
  function Clear(cfg: Config, f: Frame): (o: Outcome)
    requires Wf(cfg, f)
    ensures o.frame.cursor == 0 && o.frame.content == f.content && o.frame.defs == f.defs
  {
    Flush(cfg, Blanked(cfg, f))
  }

  /**
   * `printChar(c, digit)`: '.' and ':' first turn on the decimal point or
   * colon of the cursor's chip (which flushes the image), then the glyph
   * of `c` is painted at `digit`.
   */
  function PrintChar(cfg: Config, f: Frame, c: Byte, digit: nat): (g: Frame)
    requires Wf(cfg, f) && digit < MaxDigits
    ensures Wf(cfg, g)
    ensures g.cursor == f.cursor && g.content == f.content && g.defs == f.defs
  {
    var chip := f.cursor / DigitsPerChip;
    var h := if c == Period then Single(cfg, f, chip, DecimalLed(true)).frame
             else if c == Colon then Single(cfg, f, chip, ColonLed(true)).frame
             else f;
    h.(ram := Paint(h.ram, Glyph(h.defs, c), digit))
  }

  /** '.' and ':', which are printed at digit 0 and do not move the cursor. */
  predicate Special(b: Byte) {
    b == Period || b == Colon
  }

  /** The digit after the cursor, wrapping at the end of the chain. */
  function Advance(cfg: Config, cursor: nat): (c: nat)
    requires ValidConfig(cfg)
    ensures c < Digits(cfg)
    ensures cursor < Digits(cfg) ==> c == if cursor + 1 == Digits(cfg) then 0 else cursor + 1
  {
    (cursor + 1) % Digits(cfg)
  }

  /** `Advance` is the source's `(digitPosition + 1) % (numberOfDisplays * 4)`. */
  lemma AdvanceMod(cfg: Config, cursor: nat)
    requires ValidConfig(cfg)
    ensures Advance(cfg, cursor) == (cursor + 1) % (4 * cfg.chips)
  {
  }

  /** `write(b)` before its flush. */
  function WriteStep(cfg: Config, f: Frame, b: Byte): (g: Frame)
    requires Wf(cfg, f)
    ensures Wf(cfg, g)
  {
    if Special(b) then PrintChar(cfg, f, b, 0)
    else PrintChar(cfg, f, b, f.cursor).(cursor := Advance(cfg, f.cursor))
  }

  /** `write(b)`: the step, then the flush, whose result it returns. */
  function WriteByte(cfg: Config, f: Frame, b: Byte): (o: Outcome)
    requires Wf(cfg, f)
    ensures o.frame.content == f.content && o.frame.defs == f.defs
  {
    Flush(cfg, WriteStep(cfg, f, b))
  }

  /** One byte of `write(buffer, size)`'s loop: like `write(b)`, and records plain bytes in the content. */
  function StreamStep(cfg: Config, f: Frame, b: Byte): (g: Frame)
    requires Wf(cfg, f)
    ensures Wf(cfg, g)
    ensures g.defs == f.defs
  {
    if Special(b) then PrintChar(cfg, f, b, 0)
    else
      var h := PrintChar(cfg, f, b, f.cursor);
      h.(content := h.content[f.cursor := b], cursor := Advance(cfg, f.cursor))
  }

  /** `write(buffer, size)`'s loop over the bytes. */
  function Stream(cfg: Config, f: Frame, bytes: seq<Byte>): (g: Frame)
    requires Wf(cfg, f)
    ensures Wf(cfg, g)
    ensures g.defs == f.defs
  {
    if bytes == [] then f
    else StreamStep(cfg, Stream(cfg, f, bytes[..|bytes| - 1]), bytes[|bytes| - 1])
  }

  /** `write(buffer, size)`: blank the image and the cursor, stream the bytes, flush (its result is dropped). */
  function WriteBuffer(cfg: Config, f: Frame, bytes: seq<Byte>): (g: Frame)
    requires Wf(cfg, f)
    ensures Wf(cfg, g)
  {
    Flush(cfg, Stream(cfg, Blanked(cfg, f), bytes)).frame
  }

  /** The bytes `strlen` counts: everything before the first 0. */
  function CString(s: seq<Byte>): (t: seq<Byte>)
    ensures |t| <= |s| && t == s[..|t|]
    ensures forall k :: 0 <= k < |t| ==> t[k] != 0
    ensures |t| < |s| ==> s[|t|] == 0
  {
    if s == [] || s[0] == 0 then []
    else [s[0]] + CString(s[1..])
  }

  /** `shiftLeft(k)` on the content: slot x takes slot x+k, and the last k digits become ' '. */
  function ShiftedLeft(s: seq<Byte>, digits: nat, k: nat): (r: seq<Byte>)
    requires digits <= |s|
    ensures |r| == |s|
    ensures Plain(s) ==> Plain(r)
  {
    seq(|s|, x requires 0 <= x < |s| =>
      if x < digits then (if x + k < digits then s[x + k] else Space) else s[x])
  }

  /** `shiftRight(k)` on the content as intended: slot x takes slot x-k, and the first k digits become ' '. */
  function ShiftedRight(s: seq<Byte>, digits: nat, k: nat): (r: seq<Byte>)
    requires digits <= |s|
    ensures |r| == |s|
    ensures Plain(s) ==> Plain(r)
  {
    seq(|s|, x requires 0 <= x < |s| =>
      if x < digits then (if x < k then Space else s[x - k]) else s[x])
  }

  /**
   * `shiftRight(k)` as written: the copy loop runs down from 4n-k only to k,
   * and the blanking loop stops at 4n-k, so every slot above 4n-k keeps its
   * old value. A shift of 0 never ends (an unsigned `x >= 0`), and one of
   * more than 4n starts its unsigned index at 256+4n-k, out of the array
   * unless that is already below k.
   */
  function ShiftedRightAsWritten(s: seq<Byte>, digits: nat, k: nat): (r: seq<Byte>)
    requires 1 <= k < 256 && digits < |s| && digits < 256
    requires k <= digits || (digits - k) % 256 < k
    ensures |r| == |s|
  {
    seq(|s|, x requires 0 <= x < |s| =>
      if x + k <= digits then (if x < k then Space else s[x - k]) else s[x])
  }

  /** Shifting right then left by the same amount restores every digit that stayed on the display. */
  lemma ShiftRightThenLeft(s: seq<Byte>, digits: nat, k: nat)
    requires digits <= |s|
    ensures forall x :: 0 <= x < digits - k ==> ShiftedLeft(ShiftedRight(s, digits, k), digits, k)[x] == s[x]
    ensures forall x :: 0 <= x && digits - k <= x < digits ==> ShiftedLeft(ShiftedRight(s, digits, k), digits, k)[x] == Space
  {
  }

  /** Shifting left then right by the same amount restores every digit from k on. */
  lemma ShiftLeftThenRight(s: seq<Byte>, digits: nat, k: nat)
    requires digits <= |s|
    ensures forall x :: k <= x < digits ==> ShiftedRight(ShiftedLeft(s, digits, k), digits, k)[x] == s[x]
    ensures forall x :: 0 <= x < k && x < digits ==> ShiftedRight(ShiftedLeft(s, digits, k), digits, k)[x] == Space
  {
  }

  /** For a shift by one the code as written is right. */
  lemma ShiftRightByOne(s: seq<Byte>, digits: nat)
    requires 1 <= digits < |s| && digits < 256
    ensures ShiftedRightAsWritten(s, digits, 1) == ShiftedRight(s, digits, 1)
  {
  }

  /** "ABCD" on one chip, shifted right by two as written, reads "  AD" instead of "  AB". */
  lemma ShiftRightAsWrittenKeepsTail()
    ensures ShiftedRightAsWritten([65, 66, 67, 68, 0], 4, 2) == [32, 32, 65, 68, 0]
    ensures ShiftedRight([65, 66, 67, 68, 0], 4, 2) == [32, 32, 65, 66, 0]
  {
    var s: seq<Byte> := [65, 66, 67, 68, 0];
    assert ShiftedRightAsWritten(s, 4, 2)[3] == s[3];
  }

  /** "TEST" on one chip shifted left by one reads "EST ". */
  lemma ShiftLeftExample()
    ensures ShiftedLeft([84, 69, 83, 84, 0], 4, 1) == [69, 83, 84, 32, 0]
  {
  }

  /** `shiftLeft`'s content update, then `print(displayContent)`: re-render the string, report whether it was non-empty. */
  function ShiftLeft(cfg: Config, f: Frame, k: nat): Outcome
    requires Wf(cfg, f)
  {
    Rerender(cfg, f.(content := ShiftedLeft(f.content, Digits(cfg), k)))
  }

  /** `shiftRight` with the corrected content update. */
  function ShiftRight(cfg: Config, f: Frame, k: nat): Outcome
    requires Wf(cfg, f)
  {
    Rerender(cfg, f.(content := ShiftedRight(f.content, Digits(cfg), k)))
  }

  /** `print(displayContent)`: `write` of the C string, returning its length as a `bool`. */
  function Rerender(cfg: Config, f: Frame): Outcome
    requires Wf(cfg, f)
  {
    var text := CString(f.content);
    Outcome(WriteBuffer(cfg, f, text), |text| != 0)
  }

  /** The image after `printChar`'s decimal/colon step: the cursor chip's status bit for '.' or ':'. */
  function StatusRam(f: Frame, c: Byte): (r: seq<bv8>)
    requires |f.ram| == RamBytes && f.cursor < MaxDigits
    ensures |r| == RamBytes
  {
    if c == Period then SetStatus(f.ram, DecimalByte(f.cursor / DigitsPerChip), true)
    else if c == Colon then SetStatus(f.ram, ColonByte(f.cursor / DigitsPerChip), true)
    else f.ram
  }

  /** Lighting a decimal point or colon touches an odd byte only. */
  lemma StatusRamKeepsEven(f: Frame, c: Byte)
    requires |f.ram| == RamBytes && f.cursor < MaxDigits
    ensures forall k :: 0 <= k < RamBytes && k % 2 == 0 ==> StatusRam(f, c)[k] == f.ram[k]
  {
    var q := f.cursor / DigitsPerChip;
    assert DecimalByte(q) % 2 == 1 && ColonByte(q) % 2 == 1;
  }

  /** `printChar`'s image: the status step, then the glyph painted at `digit`. */
  lemma PrintCharRam(cfg: Config, f: Frame, c: Byte, digit: nat)
    requires Wf(cfg, f) && digit < MaxDigits
    ensures PrintChar(cfg, f, c, digit).ram == Paint(StatusRam(f, c), Glyph(f.defs, c), digit)
  {
  }

  /**
   * What `printChar(c, digit)` shows: `digit` gains the segments of c's
   * glyph (override first, then the table), and every other digit shows
   * what it showed before; the decimal point or colon a '.' or ':' turns on
   * lives in an odd byte, which holds no segment.
   */
  lemma PrintShows(cfg: Config, f: Frame, c: Byte, digit: nat, d: nat)
    requires Wf(cfg, f) && digit < MaxDigits && d < MaxDigits
    ensures Shown(PrintChar(cfg, f, c, digit).ram, d) ==
            if d == digit then Union(Shown(f.ram, d), Segments(Glyph(f.defs, c))) else Shown(f.ram, d)
  {
    PrintCharRam(cfg, f, c, digit);
    var st := StatusRam(f, c);
    StatusRamKeepsEven(f, c);
    OddBytesKeepGlyphs(st, f.ram, d);
    ShownPaint(st, Glyph(f.defs, c), digit, d);
  }

  /** `printChar` never clears a bit of the image. */
  lemma PrintNeverClears(cfg: Config, f: Frame, c: Byte, digit: nat)
    requires Wf(cfg, f) && digit < MaxDigits
    ensures Covers(PrintChar(cfg, f, c, digit).ram, StatusRam(f, c))
    ensures Covers(PrintChar(cfg, f, c, digit).ram, f.ram)
  {
    PrintCharRam(cfg, f, c, digit);
    var st := StatusRam(f, c);
    PaintSegsCovers(st, Glyph(f.defs, c), digit, SegmentCount);
    if c == Period {
      SetStatusOn(f.ram, DecimalByte(f.cursor / DigitsPerChip));
    } else if c == Colon {
      SetStatusOn(f.ram, ColonByte(f.cursor / DigitsPerChip));
    } else {
      CoversReflexive(f.ram);
    }
    CoversTransitive(PrintChar(cfg, f, c, digit).ram, st, f.ram);
  }

  /**
   * `write('.')` keeps the cursor and the content, lights the decimal point
   * of the cursor's chip, and, unless '.' was given a glyph of its own,
   * changes what no digit shows.
   */
  lemma WritePeriod(cfg: Config, f: Frame)
    requires Wf(cfg, f)
    ensures WriteStep(cfg, f, Period).cursor == f.cursor
    ensures WriteStep(cfg, f, Period).content == f.content
    ensures WriteStep(cfg, f, Period).ram[DecimalByte(f.cursor / DigitsPerChip)] & 1 == 1
    ensures FindDef(f.defs, DecimalIndex).None? ==>
            forall d :: 0 <= d < MaxDigits ==> Shown(WriteStep(cfg, f, Period).ram, d) == Shown(f.ram, d)
  {
    var offset := DecimalByte(f.cursor / DigitsPerChip);
    var g := WriteStep(cfg, f, Period);
    PrintNeverClears(cfg, f, Period, 0);
    CoversBit(g.ram, StatusRam(f, Period), offset);
    if FindDef(f.defs, DecimalIndex).None? {
      TableFacts();
      assert Glyph(f.defs, Period) == 0;
      forall d | 0 <= d < MaxDigits
        ensures Shown(g.ram, d) == Shown(f.ram, d)
      {
        PrintShows(cfg, f, Period, 0, d);
        UnionBlank(Shown(f.ram, d));
      }
    }
  }

  /**
   * `write(':')` keeps the cursor and the content, lights the colon of the
   * cursor's chip, and, unless ':' was given a glyph of its own, changes
   * what no digit shows.
   */
  lemma WriteColon(cfg: Config, f: Frame)
    requires Wf(cfg, f)
    ensures WriteStep(cfg, f, Colon).cursor == f.cursor
    ensures WriteStep(cfg, f, Colon).content == f.content
    ensures WriteStep(cfg, f, Colon).ram[ColonByte(f.cursor / DigitsPerChip)] & 1 == 1
    ensures FindDef(f.defs, ColonIndex).None? ==>
            forall d :: 0 <= d < MaxDigits ==> Shown(WriteStep(cfg, f, Colon).ram, d) == Shown(f.ram, d)
  {
    var offset := ColonByte(f.cursor / DigitsPerChip);
    var g := WriteStep(cfg, f, Colon);
    PrintNeverClears(cfg, f, Colon, 0);
    CoversBit(g.ram, StatusRam(f, Colon), offset);
    if FindDef(f.defs, ColonIndex).None? {
      TableFacts();
      assert Glyph(f.defs, Colon) == 0;
      forall d | 0 <= d < MaxDigits
        ensures Shown(g.ram, d) == Shown(f.ram, d)
      {
        PrintShows(cfg, f, Colon, 0, d);
        UnionBlank(Shown(f.ram, d));
      }
    }
  }

  /** No byte is '.' or ':'. */
  predicate Plain(bytes: seq<Byte>) {
    forall k :: 0 <= k < |bytes| ==> !Special(bytes[k])
  }

  /** The bytes of a stream that take a digit: all but '.' and ':', in order. */
  function PlainBytes(bytes: seq<Byte>): (p: seq<Byte>)
    ensures |p| <= |bytes| && Plain(p)
  {
    if bytes == [] then []
    else
      var b := bytes[|bytes| - 1];
      PlainBytes(bytes[..|bytes| - 1]) + (if Special(b) then [] else [b])
  }

  /** A stream without '.' or ':' is all plain bytes. */
  lemma {:induction false} PlainBytesOfPlain(bytes: seq<Byte>)
    requires Plain(bytes)
    ensures PlainBytes(bytes) == bytes
  {
    if bytes != [] {
      var init := bytes[..|bytes| - 1];
      PlainBytesOfPlain(init);
      assert bytes == init + [bytes[|bytes| - 1]];
    }
  }

  /** The chain has 4, 8, 12 or 16 digits. */
  lemma DigitsCases(cfg: Config)
    requires ValidConfig(cfg)
    ensures ChainSize(Digits(cfg))
  {
  }

  /** A chain size: 4, 8, 12 or 16 digits. */
  predicate ChainSize(digits: nat) {
    digits == 4 || digits == 8 || digits == 12 || digits == 16
  }

  /** The digit n advances of the cursor lead to from digit c, on a chain of `digits` digits. */
  function After(digits: nat, c: nat, n: nat): (p: nat)
    requires c < digits
    ensures p < digits
  {
    if n == 0 then c
    else
      var q := After(digits, c, n - 1);
      if q + 1 == digits then 0 else q + 1
  }

  /** How many advances lead from digit c to digit y, going round the chain. */
  function StepsTo(digits: nat, c: nat, y: nat): nat
    requires c < digits && y < digits
  {
    if c <= y then y - c else y + digits - c
  }

  /** `After` is the source's `(digitPosition + n) % (numberOfDisplays * 4)`. */
  lemma {:induction false} AfterIsMod(digits: nat, c: nat, n: nat)
    requires ChainSize(digits) && c < digits
    ensures After(digits, c, n) == (c + n) % digits
  {
    if n == 0 {
      WrapSmall(digits, c);
    } else {
      AfterIsMod(digits, c, n - 1);
      WrapSucc(digits, c + n - 1);
      var q := After(digits, c, n - 1);
      if q + 1 < digits {
        WrapSmall(digits, q + 1);
      } else {
        assert (q + 1) % digits == 0 by {
          assert q + 1 == digits * 1 + 0;
        }
      }
    }
  }

  /** Moving on from a wrapped position is wrapping the next one. */
  lemma WrapSucc(digits: nat, x: nat)
    requires ChainSize(digits)
    ensures (x % digits + 1) % digits == (x + 1) % digits
  {
    var q, r := x / digits, x % digits;
    assert x == digits * q + r;
    if r + 1 < digits {
      assert x + 1 == digits * q + (r + 1);
      assert (x + 1) / digits == q;
    } else {
      assert x + 1 == digits * (q + 1);
      assert (x + 1) % digits == 0;
    }
  }

  /** A position on the chain wraps to itself. */
  lemma WrapSmall(digits: nat, x: int)
    requires 0 <= x < digits
    ensures x % digits == x
  {
  }

  /** Without reaching the end of the chain, n advances add n; reaching it exactly wraps to 0. */
  lemma {:induction false} AfterNoWrap(digits: nat, c: nat, n: nat)
    requires c < digits && c + n <= digits
    ensures After(digits, c, n) == if c + n == digits then 0 else c + n
  {
    if n > 0 {
      AfterNoWrap(digits, c, n - 1);
    }
  }

  /** j + k advances are j advances and then k more. */
  lemma {:induction false} AfterAdd(digits: nat, c: nat, j: nat, k: nat)
    requires c < digits
    ensures After(digits, c, j + k) == After(digits, After(digits, c, j), k)
  {
    if k > 0 {
      AfterAdd(digits, c, j, k - 1);
    }
  }

  /** Fewer than a full round of advances from x is counted back by `StepsTo`. */
  lemma {:induction false} StepsToAfter(digits: nat, x: nat, k: nat)
    requires x < digits && k < digits
    ensures StepsTo(digits, x, After(digits, x, k)) == k
  {
    if k > 0 {
      StepsToAfter(digits, x, k - 1);
    }
  }

  /** However many advances are made, the digit reached is at most that many steps away. */
  lemma {:induction false} StepsToAfterAtMost(digits: nat, c: nat, n: nat)
    requires c < digits
    ensures StepsTo(digits, c, After(digits, c, n)) <= n
  {
    if n > 0 {
      StepsToAfterAtMost(digits, c, n - 1);
    }
  }

  /** Fewer than a full round apart, two numbers of advances reach different digits. */
  lemma AfterDistinct(digits: nat, c: nat, j: nat, n: nat)
    requires c < digits && j < n < j + digits
    ensures After(digits, c, j) != After(digits, c, n)
  {
    var x := After(digits, c, j);
    AfterAdd(digits, c, j, n - j);
    StepsToAfter(digits, x, n - j);
  }

  /** Streaming moves the cursor one digit for every byte other than '.' and ':', wrapping at the end of the chain. */
  lemma {:induction false} StreamCursor(cfg: Config, f: Frame, bytes: seq<Byte>)
    requires Wf(cfg, f)
    ensures Stream(cfg, f, bytes).cursor == After(Digits(cfg), f.cursor, |PlainBytes(bytes)|)
  {
    if bytes != [] {
      var init, b := bytes[..|bytes| - 1], bytes[|bytes| - 1];
      StreamCursor(cfg, f, init);
      var g := Stream(cfg, f, init);
      assert Stream(cfg, f, bytes) == StreamStep(cfg, g, b);
      StreamStepAfter(cfg, g, b, f.cursor, |PlainBytes(init)|);
      assert |PlainBytes(bytes)| == |PlainBytes(init)| + (if Special(b) then 0 else 1);
    }
  }

  /** `StreamStepCursor` counted in advances from the starting digit c. */
  lemma StreamStepAfter(cfg: Config, g: Frame, b: Byte, c: nat, n: nat)
    requires Wf(cfg, g) && c < Digits(cfg) && g.cursor == After(Digits(cfg), c, n)
    ensures StreamStep(cfg, g, b).cursor == After(Digits(cfg), c, n + (if Special(b) then 0 else 1))
  {
    StreamStepCursor(cfg, g, b);
  }

  /** One byte of the stream advances the cursor iff it is plain. */
  lemma StreamStepCursor(cfg: Config, g: Frame, b: Byte)
    requires Wf(cfg, g)
    ensures StreamStep(cfg, g, b).cursor ==
            if Special(b) then g.cursor else if g.cursor + 1 == Digits(cfg) then 0 else g.cursor + 1
  {
  }

  /**
   * Streaming records the j-th plain byte in the content slot j advances
   * after the cursor; where the stream wraps, a later byte overwrites an
   * earlier one, so the last 4n plain bytes are the ones kept. A slot no
   * plain byte reached, and every slot past the chain, is unchanged.
   */
  lemma {:induction false} StreamContent(cfg: Config, f: Frame, bytes: seq<Byte>)
    requires Wf(cfg, f)
    ensures var p := PlainBytes(bytes);
            forall j :: 0 <= j < |p| && |p| <= j + Digits(cfg) ==>
              Stream(cfg, f, bytes).content[After(Digits(cfg), f.cursor, j)] == p[j]
    ensures var p := PlainBytes(bytes);
            forall y :: 0 <= y < ContentSlots && (Digits(cfg) <= y || StepsTo(Digits(cfg), f.cursor, y) >= |p|) ==>
              Stream(cfg, f, bytes).content[y] == f.content[y]
  {
    if bytes != [] {
      var init := bytes[..|bytes| - 1];
      StreamContent(cfg, f, init);
      StreamCursor(cfg, f, init);
      var b := bytes[|bytes| - 1];
      if !Special(b) {
        StreamContentStep(cfg, f, PlainBytes(init), Stream(cfg, f, init), b);
      }
    }
  }

  /** The induction step of `StreamContent` for a plain byte `b`, about the frame `g` reached so far. */
  lemma StreamContentStep(cfg: Config, f: Frame, p: seq<Byte>, g: Frame, b: Byte)
    requires Wf(cfg, f) && Wf(cfg, g) && !Special(b)
    requires g.cursor == After(Digits(cfg), f.cursor, |p|)
    requires forall j :: 0 <= j < |p| && |p| <= j + Digits(cfg) ==> g.content[After(Digits(cfg), f.cursor, j)] == p[j]
    requires forall y :: 0 <= y < ContentSlots && (Digits(cfg) <= y || StepsTo(Digits(cfg), f.cursor, y) >= |p|) ==>
               g.content[y] == f.content[y]
    ensures var q := p + [b];
            forall j :: 0 <= j < |q| && |q| <= j + Digits(cfg) ==>
              StreamStep(cfg, g, b).content[After(Digits(cfg), f.cursor, j)] == q[j]
    ensures forall y :: 0 <= y < ContentSlots && (Digits(cfg) <= y || StepsTo(Digits(cfg), f.cursor, y) >= |p| + 1) ==>
              StreamStep(cfg, g, b).content[y] == f.content[y]
  {
    var D := Digits(cfg);
    var q := p + [b];
    var h := StreamStep(cfg, g, b);
    assert h.content == g.content[g.cursor := b];
    forall j | 0 <= j < |q| && |q| <= j + D
      ensures h.content[After(D, f.cursor, j)] == q[j]
    {
      if j < |p| {
        AfterDistinct(D, f.cursor, j, |p|);
      }
    }
    StepsToAfterAtMost(D, f.cursor, |p|);
  }

  /** Every '.' and ':' among the bytes has the blank glyph, as the table gives them. */
  predicate SpecialsBlank(defs: seq<CharDef>, bytes: seq<Byte>) {
    forall k :: 0 <= k < |bytes| && Special(bytes[k]) ==> Glyph(defs, bytes[k]) == 0
  }

  /** Without an override for '.' or ':', every stream's '.' and ':' are blank. */
  lemma NoOverrideSpecialsBlank(defs: seq<CharDef>, bytes: seq<Byte>)
    requires FindDef(defs, DecimalIndex).None? && FindDef(defs, ColonIndex).None?
    ensures SpecialsBlank(defs, bytes)
  {
    TableFacts();
  }

  /**
   * Streaming onto blank digits, when the plain bytes fit from the cursor
   * and '.' and ':' are blank: digit cursor+x shows exactly the glyph of
   * the x-th plain byte, and every other digit shows what it showed before.
   * The '.' and ':' only light status bits, which belong to no digit.
   */
  lemma {:induction false} StreamShows(cfg: Config, f: Frame, bytes: seq<Byte>)
    requires Wf(cfg, f) && SpecialsBlank(f.defs, bytes)
    requires f.cursor + |PlainBytes(bytes)| <= Digits(cfg)
    requires forall d :: f.cursor <= d < f.cursor + |PlainBytes(bytes)| ==> Shown(f.ram, d) == Segments(0)
    ensures var p := PlainBytes(bytes);
            forall d :: 0 <= d < MaxDigits ==>
              Shown(Stream(cfg, f, bytes).ram, d) ==
              if f.cursor <= d < f.cursor + |p| then Segments(Glyph(f.defs, p[d - f.cursor])) else Shown(f.ram, d)
  {
    if bytes != [] {
      var init := bytes[..|bytes| - 1];
      var b := bytes[|bytes| - 1];
      var pi := PlainBytes(init);
      assert PlainBytes(bytes) == pi + (if Special(b) then [] else [b]);
      assert SpecialsBlank(f.defs, init) by {
        forall k | 0 <= k < |init| && Special(init[k])
          ensures Glyph(f.defs, init[k]) == 0
        {
          assert init[k] == bytes[k];
        }
      }
      StreamShows(cfg, f, init);
      StreamCursor(cfg, f, init);
      var g := Stream(cfg, f, init);
      assert Stream(cfg, f, bytes) == StreamStep(cfg, g, b);
      if Special(b) {
        StreamShowsSpecial(cfg, g, b);
      } else {
        AfterNoWrap(Digits(cfg), f.cursor, |pi|);
        assert Shown(f.ram, g.cursor) == Segments(0);
        StreamShowsStep(cfg, f, pi, b, g);
      }
    }
  }

  /** A '.' or ':' with the blank glyph changes what no digit shows. */
  lemma StreamShowsSpecial(cfg: Config, g: Frame, b: Byte)
    requires Wf(cfg, g) && Special(b) && Glyph(g.defs, b) == 0
    ensures forall d :: 0 <= d < MaxDigits ==> Shown(StreamStep(cfg, g, b).ram, d) == Shown(g.ram, d)
  {
    forall d | 0 <= d < MaxDigits
      ensures Shown(StreamStep(cfg, g, b).ram, d) == Shown(g.ram, d)
    {
      PrintShows(cfg, g, b, 0, d);
      UnionBlank(Shown(g.ram, d));
    }
  }

  /**
   * The digit byte k of a stream starting at digit c is painted on: digit 0
   * for '.' and ':', otherwise the digit as many advances after c as there
   * are plain bytes before it.
   */
  function Landing(digits: nat, c: nat, bytes: seq<Byte>, k: nat): (d: nat)
    requires c < digits && k < |bytes|
    ensures d < digits
    ensures !Special(bytes[k]) ==> d == After(digits, c, |PlainBytes(bytes[..k])|)
  {
    if Special(bytes[k]) then 0 else After(digits, c, |PlainBytes(bytes[..k])|)
  }

  /** Appending a byte keeps the landing digit of every earlier byte; the new one lands under the cursor, or on digit 0. */
  lemma LandingAppend(digits: nat, c: nat, init: seq<Byte>, b: Byte, k: nat)
    requires c < digits && k <= |init|
    ensures k < |init| ==> Landing(digits, c, init + [b], k) == Landing(digits, c, init, k)
    ensures k == |init| ==>
            Landing(digits, c, init + [b], k) == if Special(b) then 0 else After(digits, c, |PlainBytes(init)|)
  {
    assert (init + [b])[..k] == init[..k];
    assert init[..|init|] == init;
  }

  /**
   * What streaming any bytes does to the digits: segment j of digit d is lit
   * afterwards iff it was lit before or some byte that lands on d has
   * segment j in its glyph. Where the stream wraps, a digit thus shows the
   * union of every glyph painted on it, since nothing clears it in between.
   */
  lemma {:induction false} StreamLit(cfg: Config, f: Frame, bytes: seq<Byte>)
    requires Wf(cfg, f)
    ensures forall d, j :: 0 <= d < MaxDigits && 0 <= j < SegmentCount ==>
              (Shown(Stream(cfg, f, bytes).ram, d)[j] <==>
               Shown(f.ram, d)[j] ||
               exists k :: 0 <= k < |bytes| && Landing(Digits(cfg), f.cursor, bytes, k) == d &&
                           MaskBit(Glyph(f.defs, bytes[k]), j))
  {
    if bytes != [] {
      var init := bytes[..|bytes| - 1];
      var b := bytes[|bytes| - 1];
      assert bytes == init + [b];
      StreamLit(cfg, f, init);
      StreamCursor(cfg, f, init);
      var g := Stream(cfg, f, init);
      assert Stream(cfg, f, bytes) == StreamStep(cfg, g, b);
      StreamLitStep(cfg, f, init, b, g);
    }
  }

  /** The induction step of `StreamLit`, about the frame `g` reached after `init`. */
  lemma StreamLitStep(cfg: Config, f: Frame, init: seq<Byte>, b: Byte, g: Frame)
    requires Wf(cfg, f) && Wf(cfg, g) && g.defs == f.defs
    requires g.cursor == After(Digits(cfg), f.cursor, |PlainBytes(init)|)
    requires forall d, j :: 0 <= d < MaxDigits && 0 <= j < SegmentCount ==>
               (Shown(g.ram, d)[j] <==>
                Shown(f.ram, d)[j] ||
                exists k :: 0 <= k < |init| && Landing(Digits(cfg), f.cursor, init, k) == d &&
                            MaskBit(Glyph(f.defs, init[k]), j))
    ensures var bytes := init + [b];
            forall d, j :: 0 <= d < MaxDigits && 0 <= j < SegmentCount ==>
              (Shown(StreamStep(cfg, g, b).ram, d)[j] <==>
               Shown(f.ram, d)[j] ||
               exists k :: 0 <= k < |bytes| && Landing(Digits(cfg), f.cursor, bytes, k) == d &&
                           MaskBit(Glyph(f.defs, bytes[k]), j))
  {
    var D, c := Digits(cfg), f.cursor;
    var bytes := init + [b];
    var h := StreamStep(cfg, g, b);
    var at := if Special(b) then 0 else g.cursor;
    LandingAppend(D, c, init, b, |init|);
    assert Landing(D, c, bytes, |init|) == at;
    forall d, j | 0 <= d < MaxDigits && 0 <= j < SegmentCount
      ensures Shown(h.ram, d)[j] <==>
              Shown(f.ram, d)[j] ||
              exists k :: 0 <= k < |bytes| && Landing(D, c, bytes, k) == d && MaskBit(Glyph(f.defs, bytes[k]), j)
    {
      PrintShows(cfg, g, b, at, d);
      assert Shown(h.ram, d)[j] <==> Shown(g.ram, d)[j] || (d == at && MaskBit(Glyph(f.defs, b), j));
      if exists k :: 0 <= k < |init| && Landing(D, c, init, k) == d && MaskBit(Glyph(f.defs, init[k]), j) {
        var k :| 0 <= k < |init| && Landing(D, c, init, k) == d && MaskBit(Glyph(f.defs, init[k]), j);
        LandingAppend(D, c, init, b, k);
        assert bytes[k] == init[k];
      }
      if exists k :: 0 <= k < |bytes| && Landing(D, c, bytes, k) == d && MaskBit(Glyph(f.defs, bytes[k]), j) {
        var k :| 0 <= k < |bytes| && Landing(D, c, bytes, k) == d && MaskBit(Glyph(f.defs, bytes[k]), j);
        if k < |init| {
          LandingAppend(D, c, init, b, k);
          assert bytes[k] == init[k];
        }
      }
    }
  }

  /** The induction step of `StreamShows`, about the frame `g` reached after `init`. */
  lemma StreamShowsStep(cfg: Config, f: Frame, init: seq<Byte>, b: Byte, g: Frame)
    requires Wf(cfg, f) && Wf(cfg, g) && !Special(b) && g.defs == f.defs
    requires g.cursor == f.cursor + |init| && f.cursor + |init| < Digits(cfg)
    requires Shown(f.ram, g.cursor) == Segments(0)
    requires forall d :: 0 <= d < MaxDigits ==>
               Shown(g.ram, d) ==
               if f.cursor <= d < f.cursor + |init| then Segments(Glyph(f.defs, init[d - f.cursor])) else Shown(f.ram, d)
    ensures forall d :: 0 <= d < MaxDigits ==>
              Shown(StreamStep(cfg, g, b).ram, d) ==
              if f.cursor <= d <= f.cursor + |init| then Segments(Glyph(f.defs, (init + [b])[d - f.cursor]))
              else Shown(f.ram, d)
  {
    StreamStepPlain(cfg, g, b);
    UnionBlank(Segments(Glyph(f.defs, b)));
    var h := StreamStep(cfg, g, b);
    forall d | 0 <= d < MaxDigits
      ensures Shown(h.ram, d) ==
              if f.cursor <= d <= f.cursor + |init| then Segments(Glyph(f.defs, (init + [b])[d - f.cursor]))
              else Shown(f.ram, d)
    {
      if d == g.cursor {
        assert (init + [b])[d - f.cursor] == b;
      } else if f.cursor <= d < g.cursor {
        assert (init + [b])[d - f.cursor] == init[d - f.cursor];
      }
    }
  }

  /**
   * One plain byte of the stream: the digit under the cursor gains the
   * byte's glyph and no other digit changes; the byte is recorded under
   * the cursor, and the cursor advances.
   */
  lemma StreamStepPlain(cfg: Config, g: Frame, b: Byte)
    requires Wf(cfg, g) && !Special(b)
    ensures forall d :: 0 <= d < MaxDigits ==>
              Shown(StreamStep(cfg, g, b).ram, d) ==
              if d == g.cursor then Union(Shown(g.ram, d), Segments(Glyph(g.defs, b))) else Shown(g.ram, d)
    ensures StreamStep(cfg, g, b).content == g.content[g.cursor := b]
    ensures StreamStep(cfg, g, b).cursor == Advance(cfg, g.cursor)
  {
    forall d | 0 <= d < MaxDigits
      ensures Shown(StreamStep(cfg, g, b).ram, d) ==
              if d == g.cursor then Union(Shown(g.ram, d), Segments(Glyph(g.defs, b))) else Shown(g.ram, d)
    {
      PrintShows(cfg, g, b, g.cursor, d);
    }
  }

  /** The image after `Blanked`: every digit of the chain shows nothing. */
  lemma BlankedShowsNothing(cfg: Config, f: Frame, d: nat)
    requires Wf(cfg, f) && d < Digits(cfg)
    ensures Shown(Blanked(cfg, f).ram, d) == Segments(0)
  {
    ShownBlank(Blanked(cfg, f).ram, d);
  }

  /**
   * `write(buffer, size)` streams from slot 0: the j-th byte other than '.'
   * and ':' is recorded in slot j modulo 4n (the last 4n such bytes are
   * kept), the slots no such byte reached are left alone, and the cursor
   * ends after the last one, wrapping at the end of the chain.
   */
  lemma WriteBufferContent(cfg: Config, f: Frame, bytes: seq<Byte>)
    requires Wf(cfg, f)
    ensures WriteBuffer(cfg, f, bytes).cursor == After(Digits(cfg), 0, |PlainBytes(bytes)|)
    ensures var p := PlainBytes(bytes);
            forall j :: 0 <= j < |p| && |p| <= j + Digits(cfg) ==>
              WriteBuffer(cfg, f, bytes).content[After(Digits(cfg), 0, j)] == p[j]
    ensures var p := PlainBytes(bytes);
            forall y :: |p| <= y < ContentSlots ==> WriteBuffer(cfg, f, bytes).content[y] == f.content[y]
  {
    var b := Blanked(cfg, f);
    StreamCursor(cfg, b, bytes);
    StreamContent(cfg, b, bytes);
  }

  /** `write(buffer, size)` of at most 4n plain bytes records them from slot 0 and leaves the cursor after them. */
  lemma WriteBufferFits(cfg: Config, f: Frame, bytes: seq<Byte>)
    requires Wf(cfg, f) && Plain(bytes) && |bytes| <= Digits(cfg)
    ensures WriteBuffer(cfg, f, bytes).cursor == if |bytes| == Digits(cfg) then 0 else |bytes|
    ensures forall x :: 0 <= x < |bytes| ==> WriteBuffer(cfg, f, bytes).content[x] == bytes[x]
    ensures forall y :: |bytes| <= y < ContentSlots ==> WriteBuffer(cfg, f, bytes).content[y] == f.content[y]
  {
    StreamFromStart(cfg, Blanked(cfg, f), bytes);
  }

  /** Streaming plain bytes that fit from digit 0 records them from slot 0 and leaves the cursor after them. */
  lemma StreamFromStart(cfg: Config, g: Frame, bytes: seq<Byte>)
    requires Wf(cfg, g) && g.cursor == 0 && Plain(bytes) && |bytes| <= Digits(cfg)
    ensures Stream(cfg, g, bytes).cursor == if |bytes| == Digits(cfg) then 0 else |bytes|
    ensures forall x :: 0 <= x < |bytes| ==> Stream(cfg, g, bytes).content[x] == bytes[x]
    ensures forall y :: |bytes| <= y < ContentSlots ==> Stream(cfg, g, bytes).content[y] == g.content[y]
  {
    var D := Digits(cfg);
    var h := Stream(cfg, g, bytes);
    PlainBytesOfPlain(bytes);
    StreamCursor(cfg, g, bytes);
    StreamContent(cfg, g, bytes);
    AfterNoWrap(D, 0, |bytes|);
    forall x | 0 <= x < |bytes|
      ensures h.content[x] == bytes[x]
    {
      AfterNoWrap(D, 0, x);
    }
  }

  /**
   * `write(buffer, size)` when its plain bytes fit on the chain and '.' and
   * ':' are blank: digit x shows exactly the glyph of the x-th plain byte,
   * and the digits after them are blank.
   */
  lemma WriteBufferShows(cfg: Config, f: Frame, bytes: seq<Byte>)
    requires Wf(cfg, f) && SpecialsBlank(f.defs, bytes) && |PlainBytes(bytes)| <= Digits(cfg)
    ensures var p := PlainBytes(bytes);
            forall d :: 0 <= d < Digits(cfg) ==>
              Shown(WriteBuffer(cfg, f, bytes).ram, d) ==
              if d < |p| then Segments(Glyph(f.defs, p[d])) else Segments(0)
  {
    var b := Blanked(cfg, f);
    forall d | 0 <= d < Digits(cfg)
      ensures Shown(b.ram, d) == Segments(0)
    {
      BlankedShowsNothing(cfg, f, d);
    }
    StreamShows(cfg, b, bytes);
  }

  /**
   * `write(buffer, size)` of any bytes: segment j of digit d of the chain is
   * lit iff some byte landing on d, counted from digit 0, has segment j in
   * its glyph. A buffer longer than the chain thus leaves each digit showing
   * the union of the glyphs written to it.
   */
  lemma WriteBufferLit(cfg: Config, f: Frame, bytes: seq<Byte>)
    requires Wf(cfg, f)
    ensures forall d, j :: 0 <= d < Digits(cfg) && 0 <= j < SegmentCount ==>
              (Shown(WriteBuffer(cfg, f, bytes).ram, d)[j] <==>
               exists k :: 0 <= k < |bytes| && Landing(Digits(cfg), 0, bytes, k) == d &&
                           MaskBit(Glyph(f.defs, bytes[k]), j))
  {
    var b := Blanked(cfg, f);
    StreamLit(cfg, b, bytes);
    SegmentsOfBlank();
    forall d | 0 <= d < Digits(cfg)
      ensures Shown(b.ram, d) == Segments(0)
    {
      BlankedShowsNothing(cfg, f, d);
    }
  }

  /**
   * `print(displayContent)` re-renders the content it was given (which
   * holds no '.' or ':'): the content is unchanged, the cursor ends after
   * the string, and the result is true iff the string is non-empty.
   */
  lemma RerenderKeepsContent(cfg: Config, f: Frame)
    requires Wf(cfg, f)
    ensures Rerender(cfg, f).frame.content == f.content
    ensures Rerender(cfg, f).frame.cursor == if |CString(f.content)| == Digits(cfg) then 0 else |CString(f.content)|
    ensures Rerender(cfg, f).ok <==> f.content[0] != 0
  {
    var text := CString(f.content);
    CStringStopsAtZero(f.content, Digits(cfg));
    CStringOfPlain(f.content);
    WriteBufferFits(cfg, f, text);
    var g := WriteBuffer(cfg, f, text);
    assert Rerender(cfg, f).frame == g;
    forall x | 0 <= x < ContentSlots
      ensures g.content[x] == f.content[x]
    {
      if x < |text| {
        assert text[x] == f.content[x];
      }
    }
    assert g.content == f.content;
  }

  /**
   * After the re-render, digit x shows the glyph of content slot x up to
   * the string's end, and nothing after it.
   */
  lemma RerenderShows(cfg: Config, f: Frame)
    requires Wf(cfg, f)
    ensures forall d :: 0 <= d < Digits(cfg) ==>
              Shown(Rerender(cfg, f).frame.ram, d) ==
              if d < |CString(f.content)| then Segments(Glyph(f.defs, f.content[d])) else Segments(0)
  {
    var text := CString(f.content);
    CStringStopsAtZero(f.content, Digits(cfg));
    CStringOfPlain(f.content);
    PlainBytesOfPlain(text);
    WriteBufferShows(cfg, f, text);
    var g := WriteBuffer(cfg, f, text);
    assert Rerender(cfg, f).frame == g;
    forall d | 0 <= d < Digits(cfg)
      ensures Shown(g.ram, d) == if d < |text| then Segments(Glyph(f.defs, f.content[d])) else Segments(0)
    {
      if d < |text| {
        assert text[d] == f.content[d];
      }
    }
  }

  /** The string `strlen` counts in a content without '.' or ':' has none either. */
  lemma CStringOfPlain(s: seq<Byte>)
    requires Plain(s)
    ensures Plain(CString(s))
  {
    var t := CString(s);
    forall k | 0 <= k < |t|
      ensures !Special(t[k])
    {
      assert t[k] == s[k];
    }
  }

  /** `strlen` stops at the first 0, so never past a 0 byte. */
  lemma {:induction false} CStringStopsAtZero(s: seq<Byte>, k: nat)
    requires k < |s| && s[k] == 0
    ensures |CString(s)| <= k
  {
    if s[0] != 0 {
      CStringStopsAtZero(s[1..], k - 1);
    }
  }

  /** How many times `isConnected` probes a chip before giving up. */
  const ConnectTries: nat := 20

  /** The probes `isConnected` sends to chip `chip`, m of them. */
  function Probes(cfg: Config, chip: nat, m: nat): seq<Transfer>
    requires ValidConfig(cfg)
  {
    seq(m, _ => Probe(LookUpDisplayAddress(cfg.addresses, chip)))
  }

  /** `isConnected`'s loop with `tries` attempts left: probe the chip until a probe is acknowledged. */
  function Connect(cfg: Config, f: Frame, chip: nat, tries: nat): (o: Outcome)
    requires ValidConfig(cfg)
    ensures o.frame == f.(log := o.frame.log)
    ensures |f.log| <= |o.frame.log| && o.frame.log[..|f.log|] == f.log
    decreases tries
  {
    if tries == 0 then Outcome(f, false)
    else
      var s := Send(cfg, f, Probe(LookUpDisplayAddress(cfg.addresses, chip)));
      if s.ok then s else Connect(cfg, s.frame, chip, tries - 1)
  }

  /** `isConnected`. */
  function IsConnected(cfg: Config, f: Frame, chip: nat): (o: Outcome)
    requires ValidConfig(cfg)
    ensures o.frame == f.(log := o.frame.log)
  {
    Connect(cfg, f, chip, ConnectTries)
  }

  /**
   * The probe loop sends only probes to the chip, stops at the first one
   * acknowledged and then reports true, and otherwise gives up after
   * `tries` unanswered probes and reports false.
   */
  lemma {:induction false} ConnectSpec(cfg: Config, f: Frame, chip: nat, tries: nat)
    requires ValidConfig(cfg)
    ensures var o := Connect(cfg, f, chip, tries);
            |o.frame.log| <= |f.log| + tries &&
            o.frame.log == f.log + Probes(cfg, chip, |o.frame.log| - |f.log|) &&
            (forall t :: |f.log| <= t < |o.frame.log| - 1 ==> !cfg.ack(t)) &&
            (o.ok <==> |f.log| < |o.frame.log| && cfg.ack(|o.frame.log| - 1)) &&
            (!o.ok ==> |o.frame.log| == |f.log| + tries)
    decreases tries
  {
    if tries > 0 {
      var s := Send(cfg, f, Probe(LookUpDisplayAddress(cfg.addresses, chip)));
      if !s.ok {
        ConnectSpec(cfg, s.frame, chip, tries - 1);
        var o := Connect(cfg, s.frame, chip, tries - 1);
        var m := |o.frame.log| - |s.frame.log|;
        assert Probes(cfg, chip, m + 1) == [Probe(LookUpDisplayAddress(cfg.addresses, chip))] + Probes(cfg, chip, m);
      } else {
        assert Probes(cfg, chip, 1) == [Probe(LookUpDisplayAddress(cfg.addresses, chip))];
      }
    }
  }

  /** `isConnected` succeeds iff one of the next twenty transactions is acknowledged. */
  lemma ConnectAnswered(cfg: Config, f: Frame, chip: nat)
    requires ValidConfig(cfg)
    ensures IsConnected(cfg, f, chip).ok <==> exists t :: |f.log| <= t < |f.log| + ConnectTries && cfg.ack(t)
  {
    ConnectSpec(cfg, f, chip, ConnectTries);
  }

  /** `begin`'s check loop from chip i on, stopping at the first chip that does not answer. */
  function ConnectFrom(cfg: Config, f: Frame, i: nat): (o: Outcome)
    requires ValidConfig(cfg) && i <= cfg.chips
    ensures o.frame == f.(log := o.frame.log)
    decreases cfg.chips - i
  {
    if i == cfg.chips then Outcome(f, true)
    else
      var c := IsConnected(cfg, f, i);
      if !c.ok then c else ConnectFrom(cfg, c.frame, i + 1)
  }

  /** `initialize`: clock on, brightness 16, no blinking, display on; the first failure ends it. */
  function Initialize(cfg: Config, f: Frame): (o: Outcome)
    requires Wf(cfg, f)
    ensures Wf(cfg, o.frame)
  {
    var a := EnableSystemClock(cfg, f);
    if !a.ok then a
    else
      var b := SetBrightness(cfg, a.frame, 16);
      if !b.ok then b
      else
        var c := SetBlinkRate(cfg, b.frame, NoBlinkCode as int as real);
        if !c.ok then c
        else SetDisplayPower(cfg, c.frame, true)
  }

  /** `AllAcked` over two adjacent ranges is `AllAcked` over their union. */
  lemma AllAckedSplit(cfg: Config, lo: nat, mid: nat, hi: nat)
    requires lo <= mid <= hi
    ensures AllAcked(cfg, lo, hi) <==> AllAcked(cfg, lo, mid) && AllAcked(cfg, mid, hi)
  {
  }

  /** `initialize` reports success iff every transaction it made was acknowledged. */
  lemma InitializeAcks(cfg: Config, f: Frame)
    requires Wf(cfg, f)
    ensures Initialize(cfg, f).ok <==> AllAcked(cfg, |f.log|, |Initialize(cfg, f).frame.log|)
  {
    var n := cfg.chips;
    var a := EnableSystemClock(cfg, f);
    ChainAcks(cfg, f, n, SystemClock(true));
    if a.ok {
      var b := SetBrightness(cfg, a.frame, 16);
      ChainAcks(cfg, a.frame, n, Brightness(16));
      if b.ok {
        var c := SetBlinkRate(cfg, b.frame, NoBlinkCode as int as real);
        ChainAcks(cfg, b.frame, n, BlinkRate(NoBlinkCode as int as real));
        AllAckedSplit(cfg, |f.log|, |a.frame.log|, |b.frame.log|);
        if c.ok {
          var g := c.frame.(onOff := DisplayOnCode);
          ChainAcks(cfg, g, n, DisplayPower(true));
          AllAckedSplit(cfg, |f.log|, |b.frame.log|, |c.frame.log|);
          AllAckedSplit(cfg, |f.log|, |c.frame.log|, |Initialize(cfg, f).frame.log|);
        } else {
          AllAckedSplit(cfg, |f.log|, |b.frame.log|, |c.frame.log|);
        }
      } else {
        AllAckedSplit(cfg, |f.log|, |a.frame.log|, |b.frame.log|);
      }
    }
  }

  /**
   * A successful `initialize` stores the display-on code and the blink code
   * `setBlinkRate` gives for the rate ALPHA_BLINK_RATE_NOBLINK (the no-blink
   * code itself unless that code is 1 or 2, which read as 1 Hz and 2 Hz
   * rates), changes nothing else but the log, and
   * sent every chip, in this order of rounds: the oscillator-on command, the
   * dimming command for 16 (which is 15), the display setup with the
   * previous on/off code, and the display setup with the display on.
   */
  lemma InitializeTraffic(cfg: Config, f: Frame)
    requires Wf(cfg, f) && Initialize(cfg, f).ok
    ensures var blink := BlinkCodeFor(NoBlinkCode as int as real);
            var n := cfg.chips;
            Initialize(cfg, f).frame ==
            f.(blink := blink, onOff := DisplayOnCode,
               log := f.log + CommandLog(cfg, n, SystemCommand(true)) + CommandLog(cfg, n, DimmingCommand(16)) +
                      CommandLog(cfg, n, DisplayCommand(blink, f.onOff)) +
                      CommandLog(cfg, n, DisplayCommand(blink, DisplayOnCode)))
    ensures NoBlinkCode != 1 && NoBlinkCode != 2 ==> Initialize(cfg, f).frame.blink == NoBlinkCode
  {
    var n := cfg.chips;
    var rate := NoBlinkCode as int as real;
    var a := EnableSystemClock(cfg, f);
    ChainCommands(cfg, f, n, SystemClock(true));
    var b := SetBrightness(cfg, a.frame, 16);
    BrightnessCommands(cfg, a.frame, 16);
    var c := SetBlinkRate(cfg, b.frame, rate);
    ChainCommands(cfg, b.frame, n, BlinkRate(rate));
    DisplayPowerCommands(cfg, c.frame, true);
    var g := c.frame.(onOff := DisplayOnCode);
    ChainCommands(cfg, g, n, DisplayPower(true));
  }

  /**
   * `begin` after its address bookkeeping: check every chip, `initialize`,
   * `clear`, then terminate the content string at index 16; the first
   * failure ends it.
   */
  function Begin(cfg: Config, f: Frame): (o: Outcome)
    requires Wf(cfg, f)
    ensures Wf(cfg, o.frame)
  {
    var c := ConnectFrom(cfg, f, 0);
    if !c.ok then c
    else
      var i := Initialize(cfg, c.frame);
      if !i.ok then i
      else
        var k := Clear(cfg, i.frame);
        if !k.ok then k
        else Outcome(k.frame.(content := k.frame.content[ContentSlots - 1 := 0]), true)
  }

  /**
   * After a successful `begin` the cursor is on the first digit, every
   * digit of the chain shows nothing, the content is as before (its slots
   * past the chain already held 0), and the display is on.
   */
  lemma BeginShowsBlank(cfg: Config, f: Frame)
    requires Wf(cfg, f) && Begin(cfg, f).ok
    ensures Begin(cfg, f).frame.cursor == 0
    ensures Begin(cfg, f).frame.content == f.content
    ensures Begin(cfg, f).frame.onOff == DisplayOnCode
    ensures forall d :: 0 <= d < Digits(cfg) ==> Shown(Begin(cfg, f).frame.ram, d) == Segments(0)
  {
    var c := ConnectFrom(cfg, f, 0);
    var i := Initialize(cfg, c.frame);
    InitializeTraffic(cfg, c.frame);
    var b := Blanked(cfg, i.frame);
    assert Begin(cfg, f).frame.ram == b.ram;
    forall d | 0 <= d < Digits(cfg)
      ensures Shown(b.ram, d) == Segments(0)
    {
      BlankedShowsNothing(cfg, i.frame, d);
    }
  }
}

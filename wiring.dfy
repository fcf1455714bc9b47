/**
 * The segment address resolver of `illuminateSegment`: where, in the flat
 * RAM image (16 bytes per chip, up to four chips), the bit for segment
 * 'A'..'N' of a logical digit lives.
 */
module Wiring {
  import opened Glyphs

  const SegmentCount: nat := 14
  const DigitsPerChip: nat := 4
  const BytesPerChip: nat := 16
  const MaxChips: nat := 4
  /** Digits of a full chain of four chips. */
  const MaxDigits: nat := 16
  /** Size of `displayRAM`: one 16-byte block per chip of a full chain. */
  const RamBytes: nat := 64

  const SegA: Byte := 65  // 'A'
  const SegG: Byte := 71  // 'G'
  const SegH: Byte := 72  // 'H'
  const SegI: Byte := 73  // 'I'
  const SegN: Byte := 78  // 'N'

  /** A bit of the RAM image: a byte offset and a bit number within that byte. */
  datatype RamBit = RamBit(offset: nat, bit: nat)

  /**
   * Reference wiring, one entry per segment A..N: the common line that drives
   * it. A..G use lines 0..6, J..N lines 2..6, and H and I lines 1 and 0.
   */
  const CommonLine: seq<nat> := [0, 1, 2, 3, 4, 5, 6, 1, 0, 2, 3, 4, 5, 6]

  /** The letter `illuminateChar` passes for bit i of a glyph. */
  function SegmentLetter(i: nat): (s: Byte)
    requires i < SegmentCount
    ensures SegA <= s <= SegN && s - SegA == i
  {
    SegA + i
  }

  /**
   * `illuminateSegment`'s address computation: the common line gives the
   * byte pair within the chip block, the digit within the chip gives the
   * row, and segments after 'G' use the upper four rows.
   */
  function SegmentAddress(segment: Byte, digit: nat): (a: RamBit)
    requires SegA <= segment <= SegN
    requires digit < MaxDigits
    ensures a.offset == 2 * CommonLine[segment - SegA] + BytesPerChip * (digit / DigitsPerChip)
    ensures a.bit == digit % DigitsPerChip + (if segment > SegG then DigitsPerChip else 0)
    ensures a.bit < 8
    ensures a.offset % 2 == 0
    ensures a.offset / BytesPerChip == digit / DigitsPerChip && a.offset % BytesPerChip <= 12
    ensures a.offset < RamBytes
  {
    var com0 := segment - SegA;
    var com1 := if com0 > 6 then com0 - 7 else com0;
    var com2 := if segment == SegI then 0 else com1;
    var com := if segment == SegH then 1 else com2;
    var row0 := digit % DigitsPerChip;
    var row := if segment > SegG then row0 + 4 else row0;
    var offset := digit / DigitsPerChip * BytesPerChip;
    var adr := com * 2 + offset;
    var adr' := if row > 7 then adr + 1 else adr;
    var bit := if row > 7 then row - 8 else row;
    RamBit(adr', bit)
  }

  /** Segment `i` of digit `digit`, as `illuminateChar` addresses it. */
  function Addr(i: nat, digit: nat): RamBit
    requires i < SegmentCount && digit < MaxDigits
  {
    SegmentAddress(SegmentLetter(i), digit)
  }

  /** Within each half of the segment set the common lines are all different. */
  lemma CommonLinesDistinct(i: nat, j: nat)
    requires i < SegmentCount && j < SegmentCount
    requires (i <= 6) == (j <= 6)
    requires CommonLine[i] == CommonLine[j]
    ensures i == j
  {
  }

  /** Distinct (segment, digit) pairs own distinct RAM bits. */
  lemma AddressInjective(i: nat, d: nat, j: nat, e: nat)
    requires i < SegmentCount && j < SegmentCount && d < MaxDigits && e < MaxDigits
    requires Addr(i, d) == Addr(j, e)
    ensures i == j && d == e
  {
    var a := Addr(i, d);
    assert d / DigitsPerChip == e / DigitsPerChip;
    assert (i <= 6) == (a.bit < DigitsPerChip) == (j <= 6);
    assert d % DigitsPerChip == e % DigitsPerChip;
    CommonLinesDistinct(i, j);
  }

  /** RAM offset of chip `chip`'s decimal-point status byte (`setDecimalOnOff`). */
  function DecimalByte(chip: nat): nat { 3 + 16 * chip }

  /** RAM offset of chip `chip`'s colon status byte (`setColonOnOff`). */
  function ColonByte(chip: nat): nat { 1 + 16 * chip }

  /** The decimal and colon status bytes are odd, so no segment of any digit lives there. */
  lemma StatusBytesApart(i: nat, digit: nat, chip: nat)
    requires i < SegmentCount && digit < MaxDigits
    ensures Addr(i, digit).offset != DecimalByte(chip)
    ensures Addr(i, digit).offset != ColonByte(chip)
  {
  }
}

/**
 * The RAM image as a value: setting single bits (`illuminateSegment`),
 * painting a glyph one segment at a time (`illuminateChar`), OR-ing the
 * decimal and colon status bits, and reading a digit's glyph back out of
 * the image, which is how the lemmas say what a display shows.
 */
module Ram {
  import opened Glyphs
  import opened Wiring

  /** `1 << b` for a bit number below 8. */
  function BitMask(b: nat): bv8
    requires b < 8
  {
    1 << b
  }

  /** Bit `i` of a glyph mask, as `illuminateChar` tests it. */
  predicate MaskBit(m: bv16, i: nat)
    requires i < 16
  {
    (m >> i) & 1 == 1
  }

  predicate InRam(ram: seq<bv8>, a: RamBit) {
    a.offset < |ram| && a.bit < 8
  }

  /** Whether RAM bit `a` is set. */
  predicate Lit(ram: seq<bv8>, a: RamBit)
    requires InRam(ram, a)
  {
    ram[a.offset] & BitMask(a.bit) != 0
  }

  /** `displayRAM[adr] = displayRAM[adr] | dat`: one bit is set, every other bit is kept. */
  function SetBit(ram: seq<bv8>, a: RamBit): (r: seq<bv8>)
    requires InRam(ram, a)
    ensures |r| == |ram|
    ensures forall k :: 0 <= k < |ram| && k != a.offset ==> r[k] == ram[k]
  {
    ram[a.offset := ram[a.offset] | BitMask(a.bit)]
  }

  /** After `SetBit`, a bit is set iff it was set before or it is the bit just set. */
  lemma SetBitLit(ram: seq<bv8>, a: RamBit, b: RamBit)
    requires InRam(ram, a) && InRam(ram, b)
    ensures Lit(SetBit(ram, a), b) <==> Lit(ram, b) || b == a
  {
    if b.offset == a.offset {
      OrBit(ram[a.offset], a.bit, b.bit);
    }
  }

  /** ORing bit i into a byte sets bit i and keeps every other bit. */
  lemma OrBit(x: bv8, i: nat, j: nat)
    requires i < 8 && j < 8
    ensures ((x | BitMask(i)) & BitMask(j) != 0) <==> (x & BitMask(j) != 0 || i == j)
  {
  }

  /** The image after `illuminateChar` has handled segments 0..i-1 of `mask` at `digit`. */
  function PaintSegs(ram: seq<bv8>, mask: bv16, digit: nat, i: nat): (r: seq<bv8>)
    requires |ram| == RamBytes && digit < MaxDigits && i <= SegmentCount
    ensures |r| == |ram|
    decreases i
  {
    if i == 0 then ram
    else
      var prev := PaintSegs(ram, mask, digit, i - 1);
      if MaskBit(mask, i - 1) then SetBit(prev, Addr(i - 1, digit)) else prev
  }

  /** The image after `illuminateChar(mask, digit)`. */
  function Paint(ram: seq<bv8>, mask: bv16, digit: nat): (r: seq<bv8>)
    requires |ram| == RamBytes && digit < MaxDigits
    ensures |r| == |ram|
  {
    PaintSegs(ram, mask, digit, SegmentCount)
  }

  /** Some segment 0..i-1 lit in `mask` lives at RAM bit `a` of `digit`. */
  predicate PaintedBy(mask: bv16, digit: nat, i: nat, a: RamBit)
    requires digit < MaxDigits && i <= SegmentCount
  {
    exists j :: 0 <= j < i && MaskBit(mask, j) && Addr(j, digit) == a
  }

  lemma PaintedByStep(mask: bv16, digit: nat, i: nat, a: RamBit)
    requires digit < MaxDigits && 0 < i <= SegmentCount
    ensures PaintedBy(mask, digit, i, a) <==>
            PaintedBy(mask, digit, i - 1, a) || (MaskBit(mask, i - 1) && Addr(i - 1, digit) == a)
  {
    if PaintedBy(mask, digit, i, a) && !PaintedBy(mask, digit, i - 1, a) {
      var j :| 0 <= j < i && MaskBit(mask, j) && Addr(j, digit) == a;
      assert j == i - 1;
    }
  }

  /** Painting sets exactly the bits of the mask's segments handled so far, and keeps all others. */
  lemma {:induction false} PaintSegsLit(ram: seq<bv8>, mask: bv16, digit: nat, i: nat, a: RamBit)
    requires |ram| == RamBytes && digit < MaxDigits && i <= SegmentCount && InRam(ram, a)
    ensures Lit(PaintSegs(ram, mask, digit, i), a) <==> Lit(ram, a) || PaintedBy(mask, digit, i, a)
  {
    if i > 0 {
      PaintSegsLit(ram, mask, digit, i - 1, a);
      PaintedByStep(mask, digit, i, a);
      if MaskBit(mask, i - 1) {
        SetBitLit(PaintSegs(ram, mask, digit, i - 1), Addr(i - 1, digit), a);
      }
    }
  }

  /** After `illuminateChar`, a segment bit of the painted digit is set iff it was or the mask lights it. */
  lemma PaintOwnDigit(ram: seq<bv8>, mask: bv16, digit: nat, j: nat)
    requires |ram| == RamBytes && digit < MaxDigits && j < SegmentCount
    ensures Lit(Paint(ram, mask, digit), Addr(j, digit)) <==> Lit(ram, Addr(j, digit)) || MaskBit(mask, j)
  {
    PaintSegsLit(ram, mask, digit, SegmentCount, Addr(j, digit));
    forall j' | 0 <= j' < SegmentCount && Addr(j', digit) == Addr(j, digit)
      ensures j' == j
    {
      AddressInjective(j', digit, j, digit);
    }
  }

  /** `illuminateChar` at one digit leaves every segment bit of every other digit as it was. */
  lemma PaintOtherDigit(ram: seq<bv8>, mask: bv16, digit: nat, other: nat, j: nat)
    requires |ram| == RamBytes && digit < MaxDigits && other < MaxDigits && other != digit
    requires j < SegmentCount
    ensures Lit(Paint(ram, mask, digit), Addr(j, other)) == Lit(ram, Addr(j, other))
  {
    PaintSegsLit(ram, mask, digit, SegmentCount, Addr(j, other));
    forall j' | 0 <= j' < SegmentCount
      ensures Addr(j', digit) != Addr(j, other)
    {
      if Addr(j', digit) == Addr(j, other) {
        AddressInjective(j', digit, j, other);
      }
    }
  }

  /** Every bit set in `small` is also set in `big`: nothing was cleared. */
  predicate Covers(big: seq<bv8>, small: seq<bv8>) {
    |big| == |small| && forall k :: 0 <= k < |small| ==> small[k] & !big[k] == 0
  }

  /** `illuminateChar` never clears a bit. */
  lemma {:induction false} PaintSegsCovers(ram: seq<bv8>, mask: bv16, digit: nat, i: nat)
    requires |ram| == RamBytes && digit < MaxDigits && i <= SegmentCount
    ensures Covers(PaintSegs(ram, mask, digit, i), ram)
  {
    if i > 0 {
      PaintSegsCovers(ram, mask, digit, i - 1);
    }
  }

  /** The segments a digit shows: entry j is the lit state of segment 'A' + j. */
  function Shown(ram: seq<bv8>, digit: nat): (s: seq<bool>)
    requires |ram| == RamBytes && digit < MaxDigits
    ensures |s| == SegmentCount
    ensures forall j :: 0 <= j < SegmentCount ==> s[j] == Lit(ram, Addr(j, digit))
  {
    seq(SegmentCount, j requires 0 <= j < SegmentCount => Lit(ram, Addr(j, digit)))
  }

  /** The segments a glyph mask lights: entry j is bit j of the mask. */
  function Segments(mask: bv16): (s: seq<bool>)
    ensures |s| == SegmentCount
    ensures forall j :: 0 <= j < SegmentCount ==> s[j] == MaskBit(mask, j)
  {
    seq(SegmentCount, j requires 0 <= j < SegmentCount => MaskBit(mask, j))
  }

  /** Segment-wise "lit in either". */
  function Union(a: seq<bool>, b: seq<bool>): (s: seq<bool>)
    requires |a| == |b|
    ensures |s| == |a|
    ensures forall j :: 0 <= j < |a| ==> s[j] == (a[j] || b[j])
  {
    seq(|a|, j requires 0 <= j < |a| => a[j] || b[j])
  }

  lemma MaskBitHigh(m: bv16, j: nat)
    requires Fits14(m) && SegmentCount <= j < 16
    ensures !MaskBit(m, j)
  {
  }

  /** Masks agreeing on bits lo..lo+3 agree on that nibble. */
  lemma NibbleAgree(x: bv16, y: bv16, lo: nat)
    requires lo in {0, 4, 8, 12}
    requires forall j :: lo <= j < lo + 4 ==> (MaskBit(x, j) <==> MaskBit(y, j))
    ensures (x >> lo) & 0xF == (y >> lo) & 0xF
  {
    var a, b := x >> lo, y >> lo;
    assert MaskBit(x, lo) == MaskBit(y, lo) && MaskBit(x, lo + 1) == MaskBit(y, lo + 1);
    assert MaskBit(x, lo + 2) == MaskBit(y, lo + 2) && MaskBit(x, lo + 3) == MaskBit(y, lo + 3);
    assert a & 1 == b & 1 && (a >> 1) & 1 == (b >> 1) & 1 && (a >> 2) & 1 == (b >> 2) & 1 && (a >> 3) & 1 == (b >> 3) & 1 by {
      ShiftSplit(x, lo);
      ShiftSplit(y, lo);
    }
  }

  /** Bits lo..lo+3 of a mask are bits 0..3 of the mask shifted right by lo. */
  lemma ShiftSplit(x: bv16, lo: nat)
    requires lo in {0, 4, 8, 12}
    ensures MaskBit(x, lo) == ((x >> lo) & 1 == 1)
    ensures MaskBit(x, lo + 1) == (((x >> lo) >> 1) & 1 == 1)
    ensures MaskBit(x, lo + 2) == (((x >> lo) >> 2) & 1 == 1)
    ensures MaskBit(x, lo + 3) == (((x >> lo) >> 3) & 1 == 1)
  {
    if lo == 0 {
    } else if lo == 4 {
    } else if lo == 8 {
    } else {
    }
  }

  /** Two masks with the same sixteen bits are equal. */
  lemma MaskExtensional(x: bv16, y: bv16)
    requires forall j :: 0 <= j < 16 ==> (MaskBit(x, j) <==> MaskBit(y, j))
    ensures x == y
  {
    NibbleAgree(x, y, 0);
    NibbleAgree(x, y, 4);
    NibbleAgree(x, y, 8);
    NibbleAgree(x, y, 12);
  }

  /** A 14-bit glyph is determined by the segments it lights. */
  lemma SegmentsInjective(x: bv16, y: bv16)
    requires Fits14(x) && Fits14(y)
    requires Segments(x) == Segments(y)
    ensures x == y
  {
    forall j | 0 <= j < 16
      ensures MaskBit(x, j) <==> MaskBit(y, j)
    {
      if j < SegmentCount {
        assert Segments(x)[j] == Segments(y)[j];
      } else {
        MaskBitHigh(x, j);
        MaskBitHigh(y, j);
      }
    }
    MaskExtensional(x, y);
  }

  /** The blank glyph lights nothing. */
  lemma SegmentsOfBlank()
    ensures forall j :: 0 <= j < SegmentCount ==> !Segments(0)[j]
  {
  }

  /** Adding the blank glyph's segments changes nothing. */
  lemma UnionBlank(s: seq<bool>)
    requires |s| == SegmentCount
    ensures Union(s, Segments(0)) == s && Union(Segments(0), s) == s
  {
    SegmentsOfBlank();
  }

  /** `Covers` chains: nothing cleared in two steps means nothing cleared overall. */
  lemma CoversTransitive(a: seq<bv8>, b: seq<bv8>, c: seq<bv8>)
    requires Covers(a, b) && Covers(b, c)
    ensures Covers(a, c)
  {
    forall k | 0 <= k < |c|
      ensures c[k] & !a[k] == 0
    {
      CoversByte(a[k], b[k], c[k]);
    }
  }

  lemma CoversReflexive(a: seq<bv8>)
    ensures Covers(a, a)
  {
  }

  /** A bit set before a covering step is still set after it. */
  lemma CoversBit(big: seq<bv8>, small: seq<bv8>, k: nat)
    requires Covers(big, small) && k < |small| && small[k] & 1 == 1
    ensures big[k] & 1 == 1
  {
    assert small[k] & !big[k] == 0;
  }

  lemma CoversByte(x: bv8, y: bv8, z: bv8)
    requires y & !x == 0 && z & !y == 0
    ensures z & !x == 0
  {
  }

  /**
   * Round trip of `illuminateChar`: the painted digit now shows its old
   * segments plus those of the mask (bits 14 and 15 of the mask light
   * nothing), and every other digit shows what it showed before.
   */
  lemma ShownPaint(ram: seq<bv8>, mask: bv16, digit: nat, other: nat)
    requires |ram| == RamBytes && digit < MaxDigits && other < MaxDigits
    ensures Shown(Paint(ram, mask, digit), other) ==
            if other == digit then Union(Shown(ram, digit), Segments(mask)) else Shown(ram, other)
  {
    var painted := Paint(ram, mask, digit);
    if other == digit {
      forall j | 0 <= j < SegmentCount
        ensures Shown(painted, digit)[j] == Union(Shown(ram, digit), Segments(mask))[j]
      {
        PaintOwnDigit(ram, mask, digit, j);
      }
    } else {
      forall j | 0 <= j < SegmentCount
        ensures Shown(painted, other)[j] == Shown(ram, other)[j]
      {
        PaintOtherDigit(ram, mask, digit, other, j);
      }
    }
  }

  /** A digit whose chip block is all zero shows no segment. */
  lemma ShownBlank(ram: seq<bv8>, digit: nat)
    requires |ram| == RamBytes && digit < MaxDigits
    requires forall k :: BytesPerChip * (digit / DigitsPerChip) <= k < BytesPerChip * (digit / DigitsPerChip) + BytesPerChip ==> ram[k] == 0
    ensures Shown(ram, digit) == Segments(0)
  {
    forall j | 0 <= j < SegmentCount
      ensures Shown(ram, digit)[j] == Segments(0)[j]
    {
      var a := Addr(j, digit);
      assert ram[a.offset] == 0;
    }
  }

  /** On a blank digit, `illuminateChar` makes it show exactly the mask's segments. */
  lemma ShownPaintBlank(ram: seq<bv8>, mask: bv16, digit: nat)
    requires |ram| == RamBytes && digit < MaxDigits
    requires forall k :: BytesPerChip * (digit / DigitsPerChip) <= k < BytesPerChip * (digit / DigitsPerChip) + BytesPerChip ==> ram[k] == 0
    ensures Shown(Paint(ram, mask, digit), digit) == Segments(mask)
  {
    ShownPaint(ram, mask, digit, digit);
    ShownBlank(ram, digit);
    SegmentsOfBlank();
  }

  /**
   * A 14-bit glyph painted on a blank digit can be read back from the
   * image: the digit shows the segments of a 14-bit mask iff that mask is
   * the one painted.
   */
  lemma PaintReadBack(ram: seq<bv8>, mask: bv16, m: bv16, digit: nat)
    requires |ram| == RamBytes && digit < MaxDigits && Fits14(mask) && Fits14(m)
    requires forall k :: BytesPerChip * (digit / DigitsPerChip) <= k < BytesPerChip * (digit / DigitsPerChip) + BytesPerChip ==> ram[k] == 0
    ensures Shown(Paint(ram, mask, digit), digit) == Segments(m) <==> m == mask
  {
    ShownPaintBlank(ram, mask, digit);
    if Segments(mask) == Segments(m) {
      SegmentsInjective(mask, m);
    }
  }

  /**
   * `setDecimalOnOff` / `setColonOnOff` on the image as written: OR 1 ("on")
   * or 0 ("off") into the status byte.
   */
  function OrStatus(ram: seq<bv8>, offset: nat, on: bool): (r: seq<bv8>)
    requires offset < |ram|
    ensures |r| == |ram|
    ensures forall k :: 0 <= k < |ram| && k != offset ==> r[k] == ram[k]
    ensures r[offset] & 1 == (if on then 1 else ram[offset] & 1)
    ensures r[offset] & 0xFE == ram[offset] & 0xFE
  {
    ram[offset := ram[offset] | (if on then 1 else 0)]
  }

  /** As written, "off" ORs in 0: the image is unchanged, so a lit decimal point or colon stays lit. */
  lemma OrStatusOffIsNoOp(ram: seq<bv8>, offset: nat)
    requires offset < |ram|
    ensures OrStatus(ram, offset, false) == ram
  {
    assert ram[offset] | 0 == ram[offset];
  }

  /** The status write as intended: "on" sets bit 0 of the status byte and "off" clears it. */
  function SetStatus(ram: seq<bv8>, offset: nat, on: bool): (r: seq<bv8>)
    requires offset < |ram|
    ensures |r| == |ram|
    ensures forall k :: 0 <= k < |ram| && k != offset ==> r[k] == ram[k]
    ensures (r[offset] & 1 == 1) <==> on
    ensures r[offset] & 0xFE == ram[offset] & 0xFE
  {
    ram[offset := if on then ram[offset] | 1 else ram[offset] & 0xFE]
  }

  /** Turning a status bit on agrees with the code as written, and never clears a bit. */
  lemma SetStatusOn(ram: seq<bv8>, offset: nat)
    requires offset < |ram|
    ensures SetStatus(ram, offset, true) == OrStatus(ram, offset, true)
    ensures Covers(SetStatus(ram, offset, true), ram)
  {
    var r := SetStatus(ram, offset, true);
    assert ram[offset] & !r[offset] == 0;
  }

  /** Images differing only in odd bytes show the same segments on every digit. */
  lemma OddBytesKeepGlyphs(r1: seq<bv8>, r2: seq<bv8>, digit: nat)
    requires |r1| == RamBytes && |r2| == RamBytes && digit < MaxDigits
    requires forall k :: 0 <= k < RamBytes && k % 2 == 0 ==> r1[k] == r2[k]
    ensures Shown(r1, digit) == Shown(r2, digit)
  {
    forall j | 0 <= j < SegmentCount
      ensures Shown(r1, digit)[j] == Shown(r2, digit)[j]
    {
      assert r1[Addr(j, digit).offset] == r2[Addr(j, digit).offset];
    }
  }
}

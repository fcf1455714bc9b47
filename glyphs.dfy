/**
 * Glyph table of the HT16K33 fourteen-segment driver: the built-in table
 * `alphanumeric_segs`, the byte-to-index rule of `printChar`, and the
 * user override list that `defineChar` appends to and
 * `getSegmentsToTurnOn` searches from its head.
 *
 * A glyph is a 14-bit mask: bit i lights segment 'A' + i (A..N).
 */
module Glyphs {

  /** An unsigned 8-bit value (`uint8_t`): a character byte or a bus address. */
  type Byte = x: int | 0 <= x < 256

  datatype Option<T> = None | Some(value: T)

  const Space: Byte := 32           // ' '
  const FirstPrintable: Byte := 33  // '!'
  const LastPrintable: Byte := 126  // '~'
  const Period: Byte := 46          // '.'
  const Colon: Byte := 58           // ':'

  /** Number of entries of the built-in table and index of its "unknown" glyph. */
  const TableSize: nat := 96
  const UnknownChar: nat := 95
  /** Table indices of '.' and ':', whose built-in glyphs are blank. */
  const DecimalIndex: nat := 14
  const ColonIndex: nat := 26

  /** The fourteen segment bits A..N. */
  const SegmentBits: bv16 := 0x3FFF

  /** The built-in table `alphanumeric_segs` in rows of eight: index 0 = ' ', 1..94 = '!'..'~', 95 = unknown. */
  const SegsRow0: seq<bv16> := [0x0000, 0x0208, 0x0202, 0x134E, 0x136D, 0x2424, 0x0CD9, 0x0200]  // space ! " # $ % & '
  const SegsRow1: seq<bv16> := [0x0039, 0x000F, 0x3E80, 0x1340, 0x2000, 0x0140, 0x0000, 0x2400]  // ( ) * + , - . /
  const SegsRow2: seq<bv16> := [0x003F, 0x0406, 0x015B, 0x014F, 0x0166, 0x016D, 0x017D, 0x1401]  // 0 1 2 3 4 5 6 7
  const SegsRow3: seq<bv16> := [0x017F, 0x0167, 0x0000, 0x2200, 0x0C00, 0x0148, 0x1080, 0x1103]  // 8 9 : ; < = > ?
  const SegsRow4: seq<bv16> := [0x033B, 0x0177, 0x130F, 0x0039, 0x120F, 0x0179, 0x0171, 0x013D]  // @ A B C D E F G
  const SegsRow5: seq<bv16> := [0x0176, 0x1209, 0x001E, 0x0C70, 0x0038, 0x04B6, 0x08B6, 0x003F]  // H I J K L M N O
  const SegsRow6: seq<bv16> := [0x0173, 0x083F, 0x0973, 0x018D, 0x1201, 0x003E, 0x2430, 0x2836]  // P Q R S T U V W
  const SegsRow7: seq<bv16> := [0x2C80, 0x1480, 0x2409, 0x0039, 0x0880, 0x000F, 0x2800, 0x0008]  // X Y Z [ \ ] ^ _
  const SegsRow8: seq<bv16> := [0x0080, 0x015F, 0x0878, 0x0158, 0x210E, 0x0079, 0x0071, 0x018F]  // ` a b c d e f g
  const SegsRow9: seq<bv16> := [0x0174, 0x1000, 0x000E, 0x1E00, 0x1200, 0x1154, 0x0850, 0x015C]  // h i j k l m n o
  const SegsRow10: seq<bv16> := [0x0471, 0x0963, 0x0050, 0x018D, 0x0078, 0x001C, 0x2010, 0x2814]  // p q r s t u v w
  const SegsRow11: seq<bv16> := [0x2C80, 0x030E, 0x2409, 0x20C9, 0x1200, 0x0D09, 0x0152, 0x3FFF]  // x y z { | } ~ unknown
  const Segs: seq<bv16> :=
    SegsRow0 + SegsRow1 + SegsRow2 + SegsRow3 + SegsRow4 + SegsRow5 +
    SegsRow6 + SegsRow7 + SegsRow8 + SegsRow9 + SegsRow10 + SegsRow11

  /** A mask uses only the fourteen segment bits. */
  predicate Fits14(m: bv16) {
    m & !SegmentBits == 0
  }

  predicate AllFit(s: seq<bv16>) {
    forall i :: 0 <= i < |s| ==> Fits14(s[i])
  }

  /** The character a table index below 95 stands for (the table is contiguous ASCII from ' '). */
  function CharAt(i: nat): (c: Byte)
    requires i < UnknownChar
    ensures Space <= c <= LastPrintable
  {
    i + Space
  }

  /**
   * `printChar`'s table index: 0 for ' ', c - '!' + 1 for '!'..'~', and the
   * unknown glyph for every other byte.
   */
  function CharacterPosition(c: Byte): (i: nat)
    ensures i < TableSize
    ensures i == UnknownChar <==> !(Space <= c <= LastPrintable)
    ensures i < UnknownChar ==> CharAt(i) == c
    ensures i == DecimalIndex <==> c == Period
    ensures i == ColonIndex <==> c == Colon
  {
    if c == Space then 0
    else if FirstPrintable <= c <= LastPrintable then c - FirstPrintable + 1
    else UnknownChar
  }

  /** Every index below 95 is reached by exactly its own character. */
  lemma CharAtRoundTrip(i: nat)
    requires i < UnknownChar
    ensures CharacterPosition(CharAt(i)) == i
  {
  }

  /** Facts about the built-in table: 14-bit entries, blank ' ', '.' and ':', all-on unknown glyph. */
  lemma TableFacts()
    ensures |Segs| == TableSize
    ensures AllFit(Segs)
    ensures Segs[0] == 0 && Segs[DecimalIndex] == 0 && Segs[ColonIndex] == 0
    ensures Segs[UnknownChar] == SegmentBits
  {
    TableAllFit();
    TableSpecialEntries();
  }

  lemma TableAllFit()
    ensures AllFit(Segs)
  {
    RowsFitLow();
    RowsFitHigh();
    var s := SegsRow0;
    AllFitConcat(s, SegsRow1);   s := s + SegsRow1;
    AllFitConcat(s, SegsRow2);   s := s + SegsRow2;
    AllFitConcat(s, SegsRow3);   s := s + SegsRow3;
    AllFitConcat(s, SegsRow4);   s := s + SegsRow4;
    AllFitConcat(s, SegsRow5);   s := s + SegsRow5;
    AllFitConcat(s, SegsRow6);   s := s + SegsRow6;
    AllFitConcat(s, SegsRow7);   s := s + SegsRow7;
    AllFitConcat(s, SegsRow8);   s := s + SegsRow8;
    AllFitConcat(s, SegsRow9);   s := s + SegsRow9;
    AllFitConcat(s, SegsRow10);  s := s + SegsRow10;
    AllFitConcat(s, SegsRow11);
  }

  lemma TableSpecialEntries()
    ensures |Segs| == TableSize
    ensures Segs[0] == 0 && Segs[DecimalIndex] == 0 && Segs[ColonIndex] == 0
    ensures Segs[UnknownChar] == SegmentBits
  {
    var low := SegsRow0 + SegsRow1 + SegsRow2 + SegsRow3;
    assert low[DecimalIndex] == 0 && low[ColonIndex] == 0;
    assert Segs == low + SegsRow4 + SegsRow5 + SegsRow6 + SegsRow7 + SegsRow8 + SegsRow9 + SegsRow10 + SegsRow11;
  }

  lemma RowsFitLow()
    ensures AllFit(SegsRow0) && AllFit(SegsRow1) && AllFit(SegsRow2)
    ensures AllFit(SegsRow3) && AllFit(SegsRow4) && AllFit(SegsRow5)
  {
  }

  lemma RowsFitHigh()
    ensures AllFit(SegsRow6) && AllFit(SegsRow7) && AllFit(SegsRow8)
    ensures AllFit(SegsRow9) && AllFit(SegsRow10) && AllFit(SegsRow11)
  {
  }

  /** A table made of 14-bit parts is a 14-bit table. */
  lemma AllFitConcat(a: seq<bv16>, b: seq<bv16>)
    requires AllFit(a) && AllFit(b)
    ensures AllFit(a + b)
  {
  }

  /** One node of the override list: a table index and the 14-bit glyph it stands for. */
  datatype CharDef = CharDef(position: nat, segments: bv16)

  /** Every override glyph is 14 bits wide (`defineChar` masks with 0x3FFF). */
  predicate DefsFit(defs: seq<CharDef>) {
    forall k :: 0 <= k < |defs| ==> Fits14(defs[k].segments)
  }

  /**
   * The linear search of `getSegmentsToTurnOn`: the glyph of the first node,
   * from the head, whose position matches.
   */
  function FindDef(defs: seq<CharDef>, pos: nat): (r: Option<bv16>)
    ensures r.None? <==> forall k :: 0 <= k < |defs| ==> defs[k].position != pos
    ensures r.Some? ==> exists j :: 0 <= j < |defs| && defs[j] == CharDef(pos, r.value) &&
                                    forall k :: 0 <= k < j ==> defs[k].position != pos
  {
    if defs == [] then None
    else if defs[0].position == pos then Some(defs[0].segments)
    else
      var r := FindDef(defs[1..], pos);
      assert forall k :: 1 <= k < |defs| ==> defs[k] == defs[1..][k - 1];
      r
  }

  /**
   * `getSegmentsToTurnOn`: the override for `pos` if the list has one,
   * otherwise the built-in table entry.
   */
  function SegmentsToTurnOn(defs: seq<CharDef>, pos: nat): (m: bv16)
    requires pos < TableSize
    ensures DefsFit(defs) ==> Fits14(m)
    ensures (forall k :: 0 <= k < |defs| ==> defs[k].position != pos) ==> m == Segs[pos]
    ensures forall j :: (0 <= j < |defs| && defs[j].position == pos &&
                         forall k :: 0 <= k < j ==> defs[k].position != pos) ==> m == defs[j].segments
  {
    TableFacts();
    match FindDef(defs, pos)
    case Some(s) => s
    case None => Segs[pos]
  }

  /** The glyph `printChar` shows for byte `c`. */
  function Glyph(defs: seq<CharDef>, c: Byte): (g: bv16)
    ensures DefsFit(defs) ==> Fits14(g)
    ensures FindDef(defs, CharacterPosition(c)).None? ==> g == Segs[CharacterPosition(c)]
  {
    SegmentsToTurnOn(defs, CharacterPosition(c))
  }

  /** `defineChar` accepts exactly '!'..'~'. */
  predicate Definable(c: Byte) {
    FirstPrintable <= c <= LastPrintable
  }

  /**
   * `defineChar` on the list as a value: appends (index, segments & 0x3FFF)
   * for '!'..'~' and reports true; any other byte leaves the list as it was.
   */
  function Define(defs: seq<CharDef>, c: Byte, segments: bv16): (r: (seq<CharDef>, bool))
    ensures r.1 <==> Definable(c)
    ensures r.1 ==> r.0 == defs + [CharDef(CharacterPosition(c), segments & SegmentBits)]
    ensures !r.1 ==> r.0 == defs
    ensures DefsFit(defs) ==> DefsFit(r.0)
  {
    if Definable(c) then (defs + [CharDef(c - FirstPrintable + 1, segments & SegmentBits)], true)
    else (defs, false)
  }

  /** Appending a node changes the search only for a position nobody defined before. */
  lemma {:induction false} FindDefAppend(defs: seq<CharDef>, d: CharDef, pos: nat)
    ensures FindDef(defs + [d], pos) ==
            if FindDef(defs, pos).Some? then FindDef(defs, pos)
            else if d.position == pos then Some(d.segments)
            else None
  {
    if defs == [] {
    } else {
      assert (defs + [d])[1..] == defs[1..] + [d];
      FindDefAppend(defs[1..], d, pos);
    }
  }

  /** Redefining an already defined character never takes effect: the first node wins. */
  lemma RedefinitionIgnored(defs: seq<CharDef>, c: Byte, segments: bv16)
    requires Definable(c)
    requires FindDef(defs, CharacterPosition(c)).Some?
    ensures Glyph(Define(defs, c, segments).0, c) == Glyph(defs, c)
  {
    FindDefAppend(defs, CharDef(CharacterPosition(c), segments & SegmentBits), CharacterPosition(c));
  }

  /** A first definition of a character is what `printChar` shows for it from then on. */
  lemma FirstDefinitionShown(defs: seq<CharDef>, c: Byte, segments: bv16)
    requires Definable(c)
    requires FindDef(defs, CharacterPosition(c)).None?
    ensures Glyph(Define(defs, c, segments).0, c) == segments & SegmentBits
  {
    FindDefAppend(defs, CharDef(CharacterPosition(c), segments & SegmentBits), CharacterPosition(c));
  }

  /** Defining one character leaves the glyph of every other byte unchanged. */
  lemma DefinitionIsLocal(defs: seq<CharDef>, c: Byte, segments: bv16, other: Byte)
    requires CharacterPosition(other) != CharacterPosition(c)
    ensures Glyph(Define(defs, c, segments).0, other) == Glyph(defs, other)
  {
    FindDefAppend(defs, CharDef(CharacterPosition(c), segments & SegmentBits), CharacterPosition(other));
  }
}

/** Streams written out byte by byte: the empty one, and that of a single character. */
module StreamExamples {
  import opened Permutations
  import opened HeaderBits
  import opened BitStream
  import opened CanonicalCodes
  import opened Rotations
  import opened MoveToFront
  import opened MtfEncoder
  import opened SymbolStream
  import opened BlockFormat
  import opened BlockHeader
  import opened TableChoice
  import opened BlockCodec
  import opened RunLength
  import opened StreamFormat
  import opened StreamSpec
  import opened BzRoundTrip

  // ---- The empty text ----

  /** The stream of an empty text has no block and a combined checksum of zero. */
  function EmptyStream(size: nat): seq<Byte>
    requires size <= 9
  {
    [0x42, 0x5a, 0x68, 0x30 + size, 0x17, 0x72, 0x45, 0x38, 0x50, 0x90, 0, 0, 0, 0]
  }

  lemma EmptyDecodes(rs: Rules, size: nat)
    requires RulesOk(rs) && 1 <= size <= 9
    ensures DecodeStream(rs, BytesToBits(EmptyStream(size))) == Got([], [])
  {
    hide BytesToBits, ParseExpected, ParseNumber, ParseSection, SectionBits, DecodeFrom;
    var trailer: seq<Byte>, zero: Crc := [0x17, 0x72, 0x45, 0x38, 0x50, 0x90], [0, 0, 0, 0];
    assert EmptyStream(size) == HeaderBytes(size) + (trailer + zero);
    BytesToBitsConcat(HeaderBytes(size), trailer + zero);
    BytesToBitsConcat(trailer, zero);
    var more := SectionBits(End(zero));
    SectionBytes(zero);
    MagicParses(size, more);
    assert MAGIC[0..] == MAGIC;
    SectionRoundTrip(End(zero), size, []);
    assert more + [] == more;
    EndDecodes(rs, size, zero, more, []);
  }

  lemma SectionBytes(crc: seq<Byte>)
    ensures SectionBits(End(crc)) == BytesToBits([0x17, 0x72, 0x45, 0x38, 0x50, 0x90]) + BytesToBits(crc)
  {
    hide BytesToBits;
  }

  // ---- Bits as one number ----

  function BigEndian(s: seq<Byte>): nat {
    if s == [] then 0 else 0x100 * BigEndian(s[..|s| - 1]) + s[|s| - 1]
  }

  lemma {:induction false} BitsJoin(u: nat, a: nat, v: nat, b: nat)
    requires v < Pow2(b)
    ensures BitsOf(u, a) + BitsOf(v, b) == BitsOf(u * Pow2(b) + v, a + b)
    decreases b
  {
    if b == 0 {
      assert BitsOf(u, a) + BitsOf(v, b) == BitsOf(u, a);
    } else {
      BitsJoin(u, a, v / 2, b - 1);
      var w, p := u * Pow2(b) + v, Pow2(b - 1);
      assert u * Pow2(b) == 2 * (u * p);
      assert w / 2 == u * p + v / 2 && w % 2 == v % 2;
      AppendParts(BitsOf(u, a), BitsOf(v / 2, b - 1), [v % 2 == 1]);
    }
  }

  lemma {:induction false} BytesAsNumber(s: seq<Byte>)
    ensures BytesToBits(s) == BitsOf(BigEndian(s), 8 * |s|)
  {
    hide BitsOf, Pow2;
    if s == [] {
      assert BitsOf(0, 0) == [];
    } else {
      var t := s[..|s| - 1];
      BytesAsNumber(t);
      Pow2Bytes();
      BitsJoin(BigEndian(t), 8 * |t|, s[|s| - 1], 8);
    }
  }

  lemma NextByte(s: seq<Byte>, c: Byte)
    ensures BigEndian(s + [c]) == 0x100 * BigEndian(s) + c
  {
    assert (s + [c])[..|s|] == s;
  }

  lemma FourBytes(s: seq<Byte>, a: Byte, b: Byte, c: Byte, d: Byte)
    ensures BigEndian(s + [a, b, c, d]) == 0x1_0000_0000 * BigEndian(s) + 0x100_0000 * a + 0x1_0000 * b + 0x100 * c + d
  {
    hide BigEndian;
    NextByte(s, a);
    NextByte(s + [a], b);
    NextByte(s + [a] + [b], c);
    NextByte(s + [a] + [b] + [c], d);
    assert s + [a] + [b] + [c] + [d] == s + [a, b, c, d];
  }

  lemma ShortNumbers()
    ensures BigEndian([]) == 0 && BigEndian([0x17, 0x72]) == 0x1772 && BigEndian([0x82, 0xee, 0x48]) == 0x82_ee48
  {
    NextByte([], 0x17);
    NextByte([0x17], 0x72);
    NextByte([], 0x82);
    NextByte([0x82], 0xee);
    NextByte([0x82, 0xee], 0x48);
    assert [] + [0x17] == [0x17] && [] + [0x82] == [0x82];
    assert [0x17] + [0x72] == [0x17, 0x72] && [0x82] + [0xee] == [0x82, 0xee] && [0x82, 0xee] + [0x48] == [0x82, 0xee, 0x48];
  }

  lemma {:induction false} PowersJoin(a: nat, b: nat)
    ensures Pow2(a + b) == Pow2(a) * Pow2(b)
    decreases b
  {
    if b > 0 {
      PowersJoin(a, b - 1);
      assert Pow2(a) * (2 * Pow2(b - 1)) == 2 * (Pow2(a) * Pow2(b - 1));
    }
  }

  lemma Powers()
    ensures Pow2(1) == 2 && Pow2(5) == 0x20 && Pow2(10) == 0x400
    ensures Pow2(16) == 0x1_0000 && Pow2(19) == 0x8_0000 && Pow2(20) == 0x10_0000
    ensures Pow2(32) == 0x1_0000_0000 && Pow2(48) == 0x1_0000_0000_0000
    ensures Pow2(71) == 0x80_0000_0000_0000_0000 && Pow2(95) == 0x8000_0000_0000_0000_0000_0000
  {
    Pow2Bytes();
    assert Pow2(7) == 0x80;
    PowersJoin(8, 8);
    PowersJoin(16, 4);
    PowersJoin(16, 3);
    PowersJoin(24, 24);
    PowersJoin(48, 16);
    PowersJoin(64, 7);
    PowersJoin(71, 24);
    hide Pow2;
  }

  // ---- The text of the one character 0x61 ----

  const LETTER: Byte := 0x61
  const LETTER_CRC: Crc := [0x19, 0x93, 0x9b, 0x6b]
  const LETTER_LENS: seq<Byte> := [2, 2, 1]

  /** The block's fields from the randomising bit to the coding tables, which make up twelve bytes. */
  const LETTER_FIELDS: seq<Byte> := [0x00, 0x00, 0x00, 0x01, 0x00, 0x20, 0x00, 0x20, 0x00, 0x21, 0x18, 0x46]

  /** The block's two symbols in three bits, the end of the stream, and five bits of padding. */
  const LETTER_DATA: seq<Byte> := [0x82, 0xee, 0x48, 0xa7, 0x0a, 0x12, 0x03, 0x32, 0x73, 0x6d, 0x60]

  /** Both magic numbers with the size digit between them, the block's checksum, and the rest. */
  const LETTER_STREAM: seq<Byte> :=
    [0x42, 0x5a, 0x68, 0x39, 0x31, 0x41, 0x59, 0x26, 0x53, 0x59, 0x19, 0x93, 0x9b, 0x6b] + LETTER_FIELDS + LETTER_DATA

  function LetterUsed(): (inUse: seq<bool>)
    ensures |inUse| == 256
  {
    seq(256, c => c == 0x61)
  }

  function LetterHeader(): Header {
    Header(LETTER_CRC, 0, 0, LetterUsed(), [0], [LETTER_LENS, LETTER_LENS])
  }

  function LetterEncoding(): Encoding {
    Encoding(LetterHeader(), [0], seq(256, c => 0), [0, 2])
  }

  lemma LetterIn()
    ensures forall c :: 0 <= c < 256 ==> (LetterUsed()[c] <==> c == LETTER)
  {
  }

  lemma {:induction false} LetterCount(n: nat)
    requires n <= 256
    ensures Used(LetterUsed(), n) == if n > 0x61 then 1 else 0
  {
    if n > 0 {
      LetterCount(n - 1);
    }
  }

  lemma LetterCodes()
    ensures Covers([0], [0]) && Codes([0], [0], 0, 2) == [0, 2]
  {
    assert Covers([0], []);
    assert Codes([0], [], 1, 2) == RunCode(1) + [2];
    assert RunCode(1) == [0] + RunCode(0);
    assert Codes([0], [0], 0, 2) == Codes([0], [], 1, 2) by {
      assert [0][1..] == [];
    }
  }

  lemma LetterEncodes()
    ensures Encodes([LETTER], LetterEncoding(), 9)
  {
    hide Used, KraftSum, Codes, RunCode, Covers, Key, Usable, LetterUsed, Pow2;
    var e := LetterEncoding();
    LetterCount(0x61);
    LetterCount(256);
    LetterCodes();
    LetterTable();
    assert [LETTER][..] == [LETTER];
    assert Iota(1) == [0];
    assert Coded([LETTER], e.ptr, e.toSeq) == [0];
    LetterIn();
    assert TableOk(LETTER_LENS, AlphaSize(e.header.inUse));
  }

  lemma LetterTable()
    ensures Usable(LETTER_LENS, 3)
    ensures Code(LETTER_LENS, 0) == 2 && Code(LETTER_LENS, 2) == 0
  {
    hide Pow2, KraftSum;
    LetterKraft();
    assert Last(LETTER_LENS, 0) == 0 && Last(LETTER_LENS, 1) == 1 && First(LETTER_LENS, 2) == 2;
  }

  lemma LetterKraft()
    ensures KraftSum(LETTER_LENS, LONGEST) == Pow2(LONGEST)
  {
    hide Pow2;
    LetterShares();
    assert LETTER_LENS[..2] == [2, 2] && [2, 2][..1] == [2] && [2][..0] == [];
    assert KraftSum([2], 20) == Pow2(18);
    assert KraftSum([2, 2], 20) == 2 * Pow2(18);
  }

  lemma LetterShares()
    ensures Pow2(20) == 2 * Pow2(19) && Pow2(19) == 2 * Pow2(18)
  {
  }

  // ---- Its fields as numbers ----

  lemma {:induction false} NoRows(i: nat)
    requires 6 < i <= 16
    ensures RowBits(LetterUsed(), i) == []
    decreases 16 - i
  {
    if i < 16 {
      NoRows(i + 1);
    }
  }

  lemma {:induction false} OneRowOnly(i: nat)
    requires i <= 6
    ensures RowBits(LetterUsed(), i) == BitsOf(0x4000, 16)
    decreases 6 - i
  {
    hide BitsOf, Pow2;
    if i < 6 {
      OneRowOnly(i + 1);
    } else {
      NoRows(7);
      LetterRow();
    }
  }

  lemma LetterRow()
    ensures Row(LetterUsed(), 6)[1] && Row(LetterUsed(), 6) == BitsOf(0x4000, 16)
  {
    hide Pow2, BitsOf;
    TwoBytes(0x40, 0);
    SomeBytes();
    var row := Row(LetterUsed(), 6);
    assert row == SomeBits(1);
  }

  lemma LetterSummary()
    ensures Summary(LetterUsed()) == BitsOf(0x0200, 16)
  {
    hide Pow2, BitsOf;
    TwoBytes(2, 0);
    SomeBytes();
    assert Row(LetterUsed(), 6)[1];
    assert Summary(LetterUsed()) == SomeBits(6);
  }

  /** Sixteen bits of which only the i-th is set. */
  function SomeBits(i: nat): Bits {
    seq(16, k => k == i)
  }

  lemma SomeBytes()
    ensures BitsOf(0x40, 8) + BitsOf(0, 8) == SomeBits(1) && BitsOf(2, 8) + BitsOf(0, 8) == SomeBits(6)
  {
    hide BitsOf;
    ByteOf0();
    ByteOf2();
    ByteOf64();
  }

  lemma ByteOf0()
    ensures BitsOf(0, 8) == [false, false, false, false, false, false, false, false]
  {
  }

  lemma ByteOf2()
    ensures BitsOf(2, 8) == [false, false, false, false, false, false, true, false]
  {
  }

  lemma ByteOf64()
    ensures BitsOf(0x40, 8) == [false, true, false, false, false, false, false, false]
  {
  }

  lemma TwoBytes(high: Byte, low: Byte)
    ensures BitsOf(high, 8) + BitsOf(low, 8) == BitsOf(0x100 * high + low, 16)
  {
    Pow2Bytes();
    BitsJoin(high, 8, low, 8);
  }

  lemma LetterMap()
    ensures MapBits(LetterUsed()) == BitsOf(0x0200_4000, 32)
  {
    hide BitsOf, Pow2, Summary, RowBits;
    OneRowOnly(0);
    LetterSummary();
    Powers();
    BitsJoin(0x0200, 16, 0x4000, 16);
  }

  lemma LetterSelectors()
    ensures SelectorSection([0], 2) == BitsOf(0x2_0002, 19)
  {
    assert Iota(2)[0] == 0;
    assert Places(Iota(2), [0]) == [0];
    assert SelectorBits([0]) == [false];
    assert SelectorBits([0]) == BitsOf(0, 1);
    assert Pow2(15) == 0x8000 && Pow2(1) == 2;
    BitsJoin(2, 3, 1, 15);
    BitsJoin(0x1_0001, 18, 0, 1);
  }

  lemma LetterSteps()
    ensures LengthBits(2, LETTER_LENS) == BitsOf(6, 5)
  {
    var l := LETTER_LENS;
    assert l[1..] == [2, 1] && [2, 1][1..] == [1] && [1][1..] == [];
    hide BitsOf;
    assert StepBits(2, 2) == [false] && StepBits(2, 1) == [true, true, false];
    assert LengthBits(1, []) == [];
    assert LengthBits(2, [1]) == [true, true, false];
    assert LengthBits(2, [2, 1]) == [false, true, true, false];
    assert LengthBits(2, l) == [false, false, true, true, false];
    SixInFive();
  }

  lemma SixInFive()
    ensures BitsOf(6, 5) == [false, false, true, true, false]
  {
  }

  lemma LetterTables()
    ensures TablesBits([LETTER_LENS, LETTER_LENS]) == BitsOf(71750, 20)
  {
    hide BitsOf, Pow2, LengthBits;
    var l := LETTER_LENS;
    LetterSteps();
    Powers();
    BitsJoin(2, 5, 6, 5);
    var one: seq<seq<Byte>> := [l];
    assert [l, l][1..] == one && one[1..] == [];
    assert TablesBits(one) == TableBits(l);
    BitsJoin(70, 10, 70, 10);
  }

  lemma LetterBody()
    ensures BodyBits(LetterHeader()) == BytesToBits(LETTER_CRC) + BytesToBits(LETTER_FIELDS)
  {
    hide BitsOf, MapBits, SelectorSection, TablesBits, BytesToBits, Pow2;
    LetterMap();
    LetterSelectors();
    LetterTables();
    Powers();
    BitsJoin(0x0200_4000, 32, 0x2_0002, 19);
    BitsJoin(0x0200_4000 * 0x8_0000 + 0x2_0002, 51, 71750, 20);
    BitsJoin(0, 24, 0x1_0020_0020_0021_1846, 71);
    BitsJoin(0, 1, 0x1_0020_0020_0021_1846, 95);
    BytesAsNumber(LETTER_FIELDS);
    FieldsValue();
    var a, b, c := BitsOf(0x0200_4000, 32), BitsOf(0x2_0002, 19), BitsOf(71750, 20);
    AppendParts(a, b, c);
  }

  lemma FieldsValue()
    ensures BigEndian(LETTER_FIELDS) == 0x1_0020_0020_0021_1846
  {
    hide BigEndian;
    var a: seq<Byte>, b: seq<Byte> := [0, 0, 0, 1], [0, 0x20, 0, 0x20];
    ShortNumbers();
    FourBytes([], 0, 0, 0, 1);
    assert [] + a == a;
    FourBytes(a, 0, 0x20, 0, 0x20);
    FourBytes(a + b, 0, 0x21, 0x18, 0x46);
    assert a + b + [0, 0x21, 0x18, 0x46] == LETTER_FIELDS;
  }

  // ---- Its data and the end as numbers ----

  lemma LetterCoded()
    requires Writes(LetterHeader().lens, [0], 0, [0, 2])
    ensures CodedBits(LetterHeader().lens, [0], 0, [0, 2]) == BitsOf(4, 3)
  {
    hide Code;
    var lens := LetterHeader().lens;
    LetterTable();
    assert [0, 2][1..] == [2] && [2][1..] == [];
    assert CodedBits(lens, [0], 1, [2]) == BitsOf(0, 1) + [];
    assert CodedBits(lens, [0], 0, [0, 2]) == BitsOf(2, 2) + BitsOf(0, 1);
    assert Pow2(1) == 2;
    BitsJoin(2, 2, 0, 1);
  }

  lemma LetterEnd()
    ensures BitsOf(4, 3) + (SectionBits(End(LETTER_CRC)) + BitsOf(0, 5)) == BytesToBits(LETTER_DATA)
  {
    hide BitsOf, BytesToBits, Pow2, BigEndian;
    SectionBytes(LETTER_CRC);
    var magic: seq<Byte> := [0x17, 0x72, 0x45, 0x38, 0x50, 0x90];
    BytesAsNumber(magic);
    BytesAsNumber(LETTER_CRC);
    BytesAsNumber(LETTER_DATA);
    EndValues();
    Powers();
    BitsJoin(4, 3, 0x1772_4538_5090, 48);
    BitsJoin(0x4_1772_4538_5090, 51, 0x1993_9b6b, 32);
    BitsJoin(0x4_1772_4538_5090_1993_9b6b, 83, 0, 5);
    AppendParts(BitsOf(4, 3), BytesToBits(magic), BytesToBits(LETTER_CRC));
    AppendParts(BitsOf(4, 3), BytesToBits(magic) + BytesToBits(LETTER_CRC), BitsOf(0, 5));
  }

  lemma EndValues()
    ensures BigEndian([0x17, 0x72, 0x45, 0x38, 0x50, 0x90]) == 0x1772_4538_5090
    ensures BigEndian(LETTER_CRC) == 0x1993_9b6b
    ensures BigEndian(LETTER_DATA) == 0x82_ee48_a70a_1203_3273_6d60
  {
    hide BigEndian;
    ShortNumbers();
    FourBytes([], 0x19, 0x93, 0x9b, 0x6b);
    assert [] + LETTER_CRC == LETTER_CRC;
    FourBytes([0x17, 0x72], 0x45, 0x38, 0x50, 0x90);
    assert [0x17, 0x72] + [0x45, 0x38, 0x50, 0x90] == [0x17, 0x72, 0x45, 0x38, 0x50, 0x90];
    var a: seq<Byte>, b: seq<Byte> := [0x82, 0xee, 0x48], [0xa7, 0x0a, 0x12, 0x03];
    FourBytes(a, 0xa7, 0x0a, 0x12, 0x03);
    FourBytes(a + b, 0x32, 0x73, 0x6d, 0x60);
    assert a + b + [0x32, 0x73, 0x6d, 0x60] == LETTER_DATA;
  }

  // ---- The whole stream ----

  lemma LetterBlock()
    requires Encodes([LETTER], LetterEncoding(), 9)
    ensures BlockBits([LETTER], LetterEncoding(), 9)
            == BytesToBits(BLOCK_BYTES) + (BytesToBits(LETTER_CRC) + BytesToBits(LETTER_FIELDS)) + BitsOf(4, 3)
  {
    hide BytesToBits, BodyBits, BitsOf, CodesBlock, LetterUsed, CodedBits, Usable, Writable;
    LetterBody();
    LetterWrites();
    LetterCoded();
  }

  const BLOCK_BYTES: seq<Byte> := [0x31, 0x41, 0x59, 0x26, 0x53, 0x59]

  lemma LetterWrites()
    ensures Writes(LetterHeader().lens, [0], 0, [0, 2])
  {
  }

  lemma LetterSplit()
    ensures BytesToBits(LETTER_STREAM)
            == BytesToBits(HeaderBytes(9)) + (BytesToBits(BLOCK_BYTES) + (BytesToBits(LETTER_CRC) + BytesToBits(LETTER_FIELDS)))
               + BytesToBits(LETTER_DATA)
  {
    hide BytesToBits;
    BytesToBitsConcat(LETTER_CRC, LETTER_FIELDS);
    BytesToBitsConcat(BLOCK_BYTES, LETTER_CRC + LETTER_FIELDS);
    BytesToBitsConcat(HeaderBytes(9), BLOCK_BYTES + (LETTER_CRC + LETTER_FIELDS));
    BytesToBitsConcat(HeaderBytes(9) + (BLOCK_BYTES + (LETTER_CRC + LETTER_FIELDS)), LETTER_DATA);
    var start: seq<Byte> := [0x42, 0x5a, 0x68, 0x39, 0x31, 0x41, 0x59, 0x26, 0x53, 0x59, 0x19, 0x93, 0x9b, 0x6b];
    assert start == HeaderBytes(9) + (BLOCK_BYTES + LETTER_CRC);
    AppendParts(BLOCK_BYTES, LETTER_CRC, LETTER_FIELDS);
    AppendParts(HeaderBytes(9), BLOCK_BYTES + LETTER_CRC, LETTER_FIELDS);
  }

  /** The checksums of the one character, and of a stream whose only block it is, are those written out here. */
  predicate LetterSums(rule: CrcRule) {
    (rule.finish)(CrcOf(rule, [LETTER])) == LETTER_CRC && (rule.join)([0, 0, 0, 0], LETTER_CRC) == LETTER_CRC
  }

  lemma LetterText(rule: CrcRule)
    requires LetterSums(rule)
    ensures Unrle([LETTER]) == Text([LETTER]) && TextsOf([[LETTER]]) == [LETTER] && Joined(rule, [[LETTER]]) == LETTER_CRC
  {
    var b: seq<Byte>, blocks: seq<seq<Byte>> := [LETTER], [[LETTER]];
    assert b[1..] == [] && [LETTER] + [] == b;
    assert Unrle([]) == Text([]);
    assert blocks[..0] == [] && [] + b == b;
  }

  lemma LetterFinished(rule: CrcRule)
    requires LetterSums(rule)
    ensures Finished(BytesToBits(LETTER_STREAM), [[LETTER]], [LetterEncoding()], 9, rule)
  {
    hide Encodes, BytesToBits, BitsOf, BlockBits, SectionBits, Unrle, CrcOf;
    var b: seq<Byte>, e := [LETTER], LetterEncoding();
    LetterEncodes();
    LetterText(rule);
    assert AllEncode([], [], 9, rule);
    OneMoreBlock([], [], 9, rule, b, e);
    assert [] + [b] == [b] && [] + [e] == [e];
    LetterBlock();
    LetterEnd();
    LetterSplit();
    var head, block, end, pad := BytesToBits(HeaderBytes(9)), BlockBits(b, e, 9), SectionBits(End(LETTER_CRC)), BitsOf(0, 5);
    assert OpenBits(true, [], [], 9, rule) == head;
    var all := BytesToBits(BLOCK_BYTES) + (BytesToBits(LETTER_CRC) + BytesToBits(LETTER_FIELDS));
    FiveParts(head, all, BitsOf(4, 3), end, pad);
    assert BytesToBits(LETTER_STREAM) == OpenBits(true, [b], [e], 9, rule) + EndBits([b], rule) + pad;
  }

  lemma FiveParts(a: Bits, b: Bits, c: Bits, d: Bits, e: Bits)
    ensures a + b + (c + (d + e)) == a + (b + c) + d + e
  {
  }

  /** The stream is one the compressor may end with when it has taken in the character, and it decodes to it. */
  lemma LetterDecodes(rs: Rules)
    requires RulesOk(rs) && LetterSums(rs.rule)
    ensures Finished(BytesToBits(LETTER_STREAM), [[LETTER]], [LetterEncoding()], 9, rs.rule)
    ensures DecodeStream(rs, BytesToBits(LETTER_STREAM)).Got? && DecodeStream(rs, BytesToBits(LETTER_STREAM)).value == [LETTER]
  {
    hide Finished, BytesToBits, DecodeStream;
    LetterFinished(rs.rule);
    LetterText(rs.rule);
    FinishedDecodes(rs, BytesToBits(LETTER_STREAM), [[LETTER]], [LetterEncoding()], 9);
  }
}

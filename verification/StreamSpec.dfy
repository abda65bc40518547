/** What any sequence of bits decodes to: the meaning of a compressed stream, whoever wrote it. */
module StreamSpec {
  import opened Permutations
  import opened BitStream
  import opened CanonicalCodes
  import opened MoveToFront
  import opened MtfEncoder
  import opened SymbolStream
  import opened MtfDecoder
  import opened BlockFormat
  import opened BlockHeader
  import opened RunLength
  import opened BlockOutput

  /** What the decoder is given besides the bits: how checksums are made, and the table for randomised blocks. */
  datatype Rules = Rules(rule: CrcRule, rNums: seq<int>)

  /** The bytes in use among the first n, in ascending order. */
  function Unseq(inUse: seq<bool>, n: nat): (s: seq<Byte>)
    requires n <= |inUse| <= 256
    ensures |s| == Used(inUse, n)
  {
    if n == 0 then [] else if inUse[n - 1] then Unseq(inUse, n - 1) + [n - 1] else Unseq(inUse, n - 1)
  }

  /** The byte of each rank; ranks beyond those in use do not occur. */
  function ToByte(inUse: seq<bool>): (s: seq<Byte>)
    requires |inUse| == 256
    ensures |s| == 256
  {
    Unseq(inUse, 256) + seq(256 - Used(inUse, 256), i => 0)
  }

  lemma {:induction false} UnseqAt(inUse: seq<bool>, n: nat, c: nat)
    requires c < n <= |inUse| <= 256 && inUse[c]
    ensures Used(inUse, c) < Used(inUse, n) && Unseq(inUse, n)[Used(inUse, c)] == c
  {
    if c < n - 1 {
      UnseqAt(inUse, n - 1, c);
    }
  }

  /** What a header that has been read is known to have. */
  ghost predicate HeaderOk(h: Header) {
    && |h.crc| == 4 && |h.inUse| == 256 && Used(h.inUse, 256) > 0 && h.randomised <= 1
    && (forall t :: 0 <= t < |h.lens| ==> TableOk(h.lens[t], AlphaSize(h.inUse)))
    && forall i :: 0 <= i < |h.selectors| ==> h.selectors[i] < |h.lens|
  }

  lemma HeaderTables(h: Header)
    requires HeaderOk(h)
    ensures 3 <= AlphaSize(h.inUse) <= MAX_ALPHA && forall t :: 0 <= t < |h.lens| ==> Lengths(h.lens[t]) && |h.lens[t]| == AlphaSize(h.inUse)
  {
    forall t | 0 <= t < |h.lens| ensures Lengths(h.lens[t]) && |h.lens[t]| == AlphaSize(h.inUse) {
      assert TableOk(h.lens[t], AlphaSize(h.inUse));
    }
  }

  lemma TablesReady(h: Header, tables: seq<Coding>)
    requires HeaderOk(h) && |tables| == |h.lens| && forall t :: 0 <= t < |tables| ==> MadeFor(h.lens[t], tables[t])
    ensures Ready(tables, h.selectors, AlphaSize(h.inUse))
  {
    HeaderTables(h);
    forall t | 0 <= t < |tables| ensures CodingOk(tables[t], AlphaSize(h.inUse)) {
      assert MadeFor(h.lens[t], tables[t]);
    }
  }

  // ---- A block's data ----

  /** The symbols of a block's data. */
  ghost function DataTail(h: Header, bits: Bits): (t: Tail)
    requires HeaderOk(h)
    ensures InList(t.codes, 256, AlphaSize(h.inUse) - 1) && (t.end.Symbol? ==> |t.end.rest| <= |bits|)
  {
    HeaderTables(h);
    var tables := CleanTables(h.lens);
    TablesReady(h, tables);
    StreamFits(tables, h.selectors, AlphaSize(h.inUse), 0, bits);
    Stream(tables, h.selectors, AlphaSize(h.inUse), 0, bits)
  }

  ghost function DataOutcome(h: Header, size: nat, codes: seq<nat>): Outcome
    requires HeaderOk(h) && InList(codes, 256, AlphaSize(h.inUse) - 1)
  {
    Undo(Iota(256), codes, AlphaSize(h.inUse) - 1, 0, 1, BLOCK_UNIT * size)
  }

  /** The column of a block, from what its codes stand for and how they end. */
  ghost function ColumnFrom(h: Header, o: Outcome, end: Fetch): (r: Parsed<seq<Byte>>)
    requires |h.inUse| == 256
    ensures r.Got? ==> end.Symbol? && r.rest == end.rest && h.origPtr < |r.value|
  {
    match o
    case Done(s) => if end.Symbol? && h.origPtr < |s| then Got(AsBytes(Chars(ToByte(h.inUse), s)), end.rest) else Invalid
    case Corrupt => Invalid
    case Unfinished => if end == Starved then Short else Invalid
  }

  function AsBytes(s: seq<nat>): (r: seq<Byte>)
    ensures |r| == |s| && ((forall i :: 0 <= i < |s| ==> s[i] < 256) ==> r == s)
  {
    seq(|s|, i requires 0 <= i < |s| => if s[i] < 256 then s[i] else 0)
  }

  // ---- Sections, one after the other ----

  ghost predicate RulesOk(rs: Rules) {
    RandTable(rs.rNums)
  }

  /** A block's characters b, its checksum and the bits after it. */
  ghost function HandThen(rs: Rules, size: nat, combined: Crc, b: seq<Byte>, crc: Crc, rest: Bits): Parsed<seq<Byte>>
    requires RulesOk(rs)
    decreases |rest|, 1
  {
    match Unrle(b)
    case Broken => Invalid
    case Text(t) =>
      if (rs.rule.finish)(CrcOf(rs.rule, t)) != crc then Invalid
      else Prefixed(t, DecodeFrom(rs, size, (rs.rule.join)(combined, crc), rest))
  }

  /** A block with its header h, once its column is known. */
  ghost function BlockThen(rs: Rules, size: nat, combined: Crc, h: Header, col: Parsed<seq<Byte>>): Parsed<seq<Byte>>
    requires RulesOk(rs) && HeaderOk(h) && (col.Got? ==> h.origPtr < |col.value|)
    decreases if col.Got? then |col.rest| else 0, 2
  {
    match col
    case Short => Short
    case Invalid => Invalid
    case Got(l, rest) => HandThen(rs, size, combined, BlockChars(l, h.origPtr, h.randomised == 1, rs.rNums), h.crc, rest)
  }

  /** A section that has been read: the end, or a block's header. */
  ghost function SectionThen(rs: Rules, size: nat, combined: Crc, section: Parsed<Section>): Parsed<seq<Byte>>
    requires RulesOk(rs) && (section.Got? && section.value.Block? ==> HeaderOk(section.value.header))
    decreases if section.Got? then |section.rest| else 0, 3
  {
    match section
    case Short => Short
    case Invalid => Invalid
    case Got(End(crc), rest) => if crc == combined then Got([], rest) else Invalid
    case Got(Block(h), rest) =>
      var t := DataTail(h, rest);
      BlockThen(rs, size, combined, h, ColumnFrom(h, DataOutcome(h, size, t.codes), t.end))
  }

  /** The text of the stream from a section on, combined being the checksum of the blocks before. */
  ghost function DecodeFrom(rs: Rules, size: nat, combined: Crc, bits: Bits): Parsed<seq<Byte>>
    requires RulesOk(rs)
    decreases |bits|, 0
  {
    SectionFacts(size, bits);
    var section := ParseSection(size, bits);
    if section.Got? then SectionThen(rs, size, combined, section) else if section.Short? then Short else Invalid
  }

  lemma SectionFacts(size: nat, bits: Bits)
    ensures var r := ParseSection(size, bits);
            && (r.Got? ==> |r.rest| < |bits|)
            && (r.Got? && r.value.Block? ==> HeaderOk(r.value.header) && r.value.header.origPtr <= 10 + BLOCK_UNIT * size)
  {
    hide ParseNumber, ParseExpected, ParseBytes, TableOk, ParseMap, ParseSelectorSection, ParseTables, Used;
  }

  // ---- The stream ----

  const MAGIC: seq<Byte> := [0x42, 0x5a, 0x68]

  /** The byte that says how large blocks are. */
  ghost function SizeThen(rs: Rules, bits: Bits): Parsed<seq<Byte>>
    requires RulesOk(rs)
  {
    var (c, rest) :- ParseNumber(8, bits);
    if c < 0x30 + 1 || c > 0x30 + 9 then Invalid else DecodeFrom(rs, c - 0x30, [0, 0, 0, 0], rest)
  }

  /** i bytes of the magic number having been read. */
  ghost function MagicThen(rs: Rules, i: nat, bits: Bits): Parsed<seq<Byte>>
    requires RulesOk(rs) && i <= 3
  {
    var (_, rest) :- ParseExpected(MAGIC[i..], bits);
    SizeThen(rs, rest)
  }

  /** What a stream decodes to, and the bits after it; or that it is too short, or not a stream. */
  ghost function DecodeStream(rs: Rules, bits: Bits): Parsed<seq<Byte>>
    requires RulesOk(rs)
  {
    MagicThen(rs, 0, bits)
  }
}

/** The two ends of bzip2 together. */
module BzRoundTrip {
  import opened Permutations
  import opened InverseBwt
  import opened BitStream
  import opened SymbolStream
  import opened BlockFormat
  import opened BlockHeader
  import opened BlockOutput
  import opened BlockCodec
  import opened RunLength
  import opened StreamFormat
  import opened StreamSpec
  import opened Compressor
  import opened StreamDecoder

  // ---- A stream seen from the front ----

  /** The bits of the blocks from k on. */
  ghost function BlocksFrom(blocks: seq<seq<Byte>>, es: seq<Encoding>, size: nat, rule: CrcRule, k: nat): Bits
    requires AllEncode(blocks, es, size, rule) && k <= |blocks|
    decreases |blocks| - k
  {
    if k == |blocks| then []
    else
      assert BlockOk(blocks[k], es[k], size, rule);
      BlockBits(blocks[k], es[k], size) + BlocksFrom(blocks, es, size, rule, k + 1)
  }

  lemma AllEncodePrefix(blocks: seq<seq<Byte>>, es: seq<Encoding>, size: nat, rule: CrcRule, k: nat)
    requires AllEncode(blocks, es, size, rule) && k <= |blocks|
    ensures |blocks| == |es| && AllEncode(blocks[..k], es[..k], size, rule)
    ensures k < |blocks| ==> BlockOk(blocks[k], es[k], size, rule) && Encodes(blocks[k], es[k], size)
  {
    hide Encodes;
  }

  lemma {:induction false} BlocksSplit(blocks: seq<seq<Byte>>, es: seq<Encoding>, size: nat, rule: CrcRule, k: nat)
    requires AllEncode(blocks, es, size, rule) && k <= |blocks|
    ensures AllEncode(blocks[..k], es[..k], size, rule)
    ensures BlocksBits(blocks, es, size, rule)
            == BlocksBits(blocks[..k], es[..k], size, rule) + BlocksFrom(blocks, es, size, rule, k)
    decreases |blocks| - k
  {
    hide BlockBits, Encodes, AllEncode;
    AllEncodePrefix(blocks, es, size, rule, k);
    if k == |blocks| {
      assert blocks[..k] == blocks && es[..k] == es;
    } else {
      BlocksSplit(blocks, es, size, rule, k + 1);
      assert blocks[..k + 1][..k] == blocks[..k] && es[..k + 1][..k] == es[..k];
      assert |blocks[..k + 1]| == k + 1 && blocks[..k + 1][k] == blocks[k] && es[..k + 1][k] == es[k];
      AppendParts(BlocksBits(blocks[..k], es[..k], size, rule), BlockBits(blocks[k], es[k], size),
                  BlocksFrom(blocks, es, size, rule, k + 1));
    }
  }

  /** What is left to read when k blocks have been read. */
  ghost function RestBits(blocks: seq<seq<Byte>>, es: seq<Encoding>, size: nat, rule: CrcRule, k: nat, pad: Bits): Bits
    requires AllEncode(blocks, es, size, rule) && k <= |blocks|
  {
    BlocksFrom(blocks, es, size, rule, k) + (EndBits(blocks, rule) + pad)
  }

  lemma RestStep(blocks: seq<seq<Byte>>, es: seq<Encoding>, size: nat, rule: CrcRule, k: nat, pad: Bits)
    requires AllEncode(blocks, es, size, rule) && k < |blocks|
    ensures |blocks| == |es| && BlockOk(blocks[k], es[k], size, rule) && Encodes(blocks[k], es[k], size)
    ensures RestBits(blocks, es, size, rule, k, pad)
            == BlockBits(blocks[k], es[k], size) + RestBits(blocks, es, size, rule, k + 1, pad)
  {
    hide BlockBits, Encodes, AllEncode, EndBits, BlockOk;
    AllEncodePrefix(blocks, es, size, rule, k);
    AppendParts(BlockBits(blocks[k], es[k], size), BlocksFrom(blocks, es, size, rule, k + 1), EndBits(blocks, rule) + pad);
  }

  lemma RestEnds(blocks: seq<seq<Byte>>, es: seq<Encoding>, size: nat, rule: CrcRule, pad: Bits)
    requires AllEncode(blocks, es, size, rule)
    ensures ParseSection(size, RestBits(blocks, es, size, rule, |blocks|, pad))
            == Got(End(RunLength.Joined(rule, blocks)), pad)
  {
    hide AllEncode, SectionBits, ParseSection;
    assert [] + (EndBits(blocks, rule) + pad) == EndBits(blocks, rule) + pad;
    SectionRoundTrip(End(RunLength.Joined(rule, blocks)), size, pad);
  }

  /** A finished stream starts with its header, and then the blocks follow. */
  lemma FinishedStarts(bits: Bits, blocks: seq<seq<Byte>>, es: seq<Encoding>, size: nat, rule: CrcRule) returns (pad: Bits)
    requires Finished(bits, blocks, es, size, rule)
    ensures AllEncode(blocks, es, size, rule) && 1 <= size <= 9
    ensures bits == BytesToBits(HeaderBytes(size)) + RestBits(blocks, es, size, rule, 0, pad)
  {
    hide AllEncode, SectionBits, BlockBits, Encodes, BytesToBits, EndBits, BlockOk;
    pad :| |pad| < 8 && bits == OpenBits(true, blocks, es, size, rule) + EndBits(blocks, rule) + pad;
    BlocksSplit(blocks, es, size, rule, 0);
    AllEncodePrefix(blocks, es, size, rule, 0);
    NoBlocks(blocks[..0], es[..0], size, rule);
    SizeFits(blocks, es, size, rule);
    FrontFirst(BytesToBits(HeaderBytes(size)), [], BlocksFrom(blocks, es, size, rule, 0), EndBits(blocks, rule), pad);
  }

  lemma SizeFits(blocks: seq<seq<Byte>>, es: seq<Encoding>, size: nat, rule: CrcRule)
    requires AllEncode(blocks, es, size, rule)
    ensures 1 <= size <= 9
  {
  }

  lemma NoBlocks(blocks: seq<seq<Byte>>, es: seq<Encoding>, size: nat, rule: CrcRule)
    requires AllEncode(blocks, es, size, rule) && blocks == []
    ensures BlocksBits(blocks, es, size, rule) == []
  {
  }

  lemma FrontFirst(head: Bits, none: Bits, all: Bits, end: Bits, pad: Bits)
    requires none == []
    ensures head + (none + all) + end + pad == head + (all + (end + pad))
  {
  }

  // ---- A finished stream decodes to its text ----

  /** Text of the first k blocks, and then of one more. */
  lemma TextsStep(blocks: seq<seq<Byte>>, rule: CrcRule, k: nat)
    requires k < |blocks|
    ensures TextsOf(blocks[..k + 1]) == TextsOf(blocks[..k]) + TextOf(blocks[k])
    ensures RunLength.Joined(rule, blocks[..k + 1])
            == (rule.join)(RunLength.Joined(rule, blocks[..k]), (rule.finish)(CrcOf(rule, TextOf(blocks[k]))))
  {
    assert blocks[..k + 1][..k] == blocks[..k];
  }

  lemma NothingJoined(rule: CrcRule, blocks: seq<seq<Byte>>)
    ensures RunLength.Joined(rule, blocks[..0]) == [0, 0, 0, 0]
  {
    assert blocks[..0] == [];
  }

  lemma MagicParses(size: nat, more: Bits)
    requires size <= 9
    ensures ParseExpected([0x42, 0x5a, 0x68], BytesToBits(HeaderBytes(size)) + more)
            == Got([0x42, 0x5a, 0x68], BytesToBits([0x30 + size]) + more)
    ensures ParseNumber(8, BytesToBits([0x30 + size]) + more) == Got(0x30 + size, more)
  {
    var magic: seq<Byte>, last: seq<Byte> := [0x42, 0x5a, 0x68], [0x30 + size];
    assert HeaderBytes(size) == magic + last;
    BytesToBitsConcat(magic, last);
    AppendParts(BytesToBits(magic), BytesToBits(last), more);
    ExpectedRoundTrip(magic, BytesToBits(last) + more);
    ByteAhead(0x30 + size, [], more);
    assert last == [0x30 + size] + [];
    assert BytesToBits([]) + more == more;
  }

  /** The text of the blocks from k on. */
  function TextsFrom(blocks: seq<seq<Byte>>, k: nat): seq<Byte>
    requires k <= |blocks|
    decreases |blocks| - k
  {
    if k == |blocks| then [] else TextOf(blocks[k]) + TextsFrom(blocks, k + 1)
  }

  lemma {:induction false} TextsJoin(blocks: seq<seq<Byte>>, rule: CrcRule, k: nat)
    requires k <= |blocks|
    ensures TextsOf(blocks[..k]) + TextsFrom(blocks, k) == TextsOf(blocks)
    decreases |blocks| - k
  {
    if k == |blocks| {
      assert blocks[..k] == blocks;
    } else {
      TextsStep(blocks, rule, k);
      TextsJoin(blocks, rule, k + 1);
      AppendParts(TextsOf(blocks[..k]), TextOf(blocks[k]), TextsFrom(blocks, k + 1));
    }
  }

  /** One written block decodes to its text, and the rest of the stream follows. */
  lemma BlockDecodes(rs: Rules, b: seq<Byte>, e: Encoding, size: nat, combined: Crc, rest: Bits)
    requires RulesOk(rs) && BlockOk(b, e, size, rs.rule) && Encodes(b, e, size)
    ensures DecodeFrom(rs, size, combined, BlockBits(b, e, size) + rest)
            == Prefixed(TextOf(b), DecodeFrom(rs, size, (rs.rule.join)(combined, (rs.rule.finish)(CrcOf(rs.rule, TextOf(b)))), rest))
  {
    hide Encodes, ParseSection, DataTail, DataOutcome, ColumnFrom, BlockBits, CodedBits, BlockChars, LastColumn, DecodeFrom, Unrle, CrcOf, Writes;
    HeaderDecodes(b, e, size, rest);
    var data := CodedBits(e.header.lens, e.header.selectors, 0, e.codes) + rest;
    DecodeIs(rs, size, combined, BlockBits(b, e, size) + rest);
    SectionIs(rs, size, combined, ParseSection(size, BlockBits(b, e, size) + rest), []);
    DataDecodes(b, e, size, rest);
    BlockCodec.ColumnIs(b, e, size, rest);
    CharsAre(b, e, size, rs.rNums);
    PrefixedNone(SectionThen(rs, size, combined, Got(Block(e.header), data)));
    PrefixedNone(BlockThen(rs, size, combined, e.header, Got(LastColumn(b, e.ptr), rest)));
  }

  lemma {:induction false} DecodesFrom(rs: Rules, blocks: seq<seq<Byte>>, es: seq<Encoding>, size: nat, k: nat, pad: Bits)
    requires RulesOk(rs) && AllEncode(blocks, es, size, rs.rule) && k <= |blocks|
    ensures DecodeFrom(rs, size, RunLength.Joined(rs.rule, blocks[..k]), RestBits(blocks, es, size, rs.rule, k, pad))
            == Got(TextsFrom(blocks, k), pad)
    decreases |blocks| - k
  {
    hide AllEncode, RestBits, Encodes, DecodeFrom, BlockBits, BlockOk, RunLength.Joined, ParseSection, CrcOf, TextOf;
    var combined := RunLength.Joined(rs.rule, blocks[..k]);
    if k == |blocks| {
      assert blocks[..k] == blocks;
      RestEnds(blocks, es, size, rs.rule, pad);
      EndDecodes(rs, size, combined, RestBits(blocks, es, size, rs.rule, k, pad), pad);
    } else {
      RestStep(blocks, es, size, rs.rule, k, pad);
      BlockDecodes(rs, blocks[k], es[k], size, combined, RestBits(blocks, es, size, rs.rule, k + 1, pad));
      TextsStep(blocks, rs.rule, k);
      DecodesFrom(rs, blocks, es, size, k + 1, pad);
    }
  }

  lemma EndDecodes(rs: Rules, size: nat, combined: Crc, bits: Bits, pad: Bits)
    requires RulesOk(rs) && ParseSection(size, bits) == Got(End(combined), pad)
    ensures DecodeFrom(rs, size, combined, bits) == Got([], pad)
  {
    hide ParseSection, DecodeFrom;
    DecodeIs(rs, size, combined, bits);
  }

  /** Every stream the compressor can finish decodes to the text of its blocks. */
  lemma FinishedDecodes(rs: Rules, bits: Bits, blocks: seq<seq<Byte>>, es: seq<Encoding>, size: nat)
    requires RulesOk(rs) && Finished(bits, blocks, es, size, rs.rule)
    ensures DecodeStream(rs, bits).Got? && DecodeStream(rs, bits).value == TextsOf(blocks)
  {
    hide Finished, AllEncode, RestBits, DecodeFrom, BytesToBits, ParseExpected, ParseNumber, RunLength.Joined, TextsOf;
    var pad := FinishedStarts(bits, blocks, es, size, rs.rule);
    var more := RestBits(blocks, es, size, rs.rule, 0, pad);
    MagicParses(size, more);
    assert MAGIC[0..] == MAGIC;
    DecodesFrom(rs, blocks, es, size, 0, pad);
    NothingJoined(rs.rule, blocks);
    TextsJoin(blocks, rs.rule, 0);
    NoTexts(blocks);
  }

  lemma NoTexts(blocks: seq<seq<Byte>>)
    ensures TextsOf(blocks[..0]) + TextsFrom(blocks, 0) == TextsFrom(blocks, 0)
  {
    assert blocks[..0] == [];
  }

  // ---- There and back ----

  /** A stream brought to its end, by whatever calls, is that of all bytes taken in. */
  lemma EndedStream(s: EState)
    requires s.Valid() && s.mode == Idle
    ensures Finished(BytesToBits(s.Emitted()), s.blocks, s.es, s.blockSize100k, s.rule) && s.consumed == TextsOf(s.blocks)
  {
    hide Finished, TextsOf, AllEncode, BytesToBits;
    assert s.taken + s.w.zbits[..|s.w.zbits|] == s.taken + s.w.zbits;
    assert TextsOf(s.blocks) + [] + [] == TextsOf(s.blocks);
  }

  /**
   * Whatever calls, actions and buffer sizes brought a compressing stream to its end, decompressing what it
   * handed out, in the fast or the small form, from pieces of any size into pieces of any size, gives the
   * bytes it took in.
   */
  method ThereAndBack(s: EState, zbits: seq<Byte>, rNums: seq<int>, smallDecompress: bool) returns (out: seq<Byte>)
    requires s.Valid() && s.mode == Idle && zbits == s.Emitted() && RandTable(rNums)
    ensures out == s.consumed
  {
    hide EState.Valid, Finished, DecodeStream;
    EndedStream(s);
    FinishedDecodes(Rules(s.rule, rNums), BytesToBits(zbits), s.blocks, s.es, s.blockSize100k);
    out := ReadBack(zbits, Rules(s.rule, rNums), smallDecompress);
  }
}

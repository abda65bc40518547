/** A whole compressed stream: its header, its blocks, and its end. */
module StreamFormat {
  import opened Permutations
  import opened BitStream
  import opened BlockHeader
  import opened BlockCodec
  import opened RunLength

  function HeaderBytes(size: nat): seq<Byte>
    requires size <= 9
  {
    [0x42, 0x5a, 0x68, 0x30 + size]
  }

  /** Every block is written by its encoding and carries the checksum of its text. */
  ghost predicate AllEncode(blocks: seq<seq<Byte>>, es: seq<Encoding>, size: nat, rule: CrcRule) {
    && |blocks| == |es| && 1 <= size <= 9
    && forall i :: 0 <= i < |blocks| ==> BlockOk(blocks[i], es[i], size, rule)
  }

  ghost predicate BlockOk(b: seq<Byte>, e: Encoding, size: nat, rule: CrcRule) {
    && Encodes(b, e, size) && e.header.randomised == 0
    && Unrle(b).Text? && e.header.crc == (rule.finish)(CrcOf(rule, TextOf(b)))
  }

  lemma AllEncodeInit(blocks: seq<seq<Byte>>, es: seq<Encoding>, size: nat, rule: CrcRule)
    requires AllEncode(blocks, es, size, rule) && blocks != []
    ensures AllEncode(blocks[..|blocks| - 1], es[..|es| - 1], size, rule)
    ensures BlockOk(blocks[|blocks| - 1], es[|es| - 1], size, rule)
  {
  }

  /** All blocks' bits. */
  ghost function BlocksBits(blocks: seq<seq<Byte>>, es: seq<Encoding>, size: nat, rule: CrcRule): Bits
    requires AllEncode(blocks, es, size, rule)
  {
    if blocks == [] then []
    else
      AllEncodeInit(blocks, es, size, rule);
      BlocksBits(blocks[..|blocks| - 1], es[..|es| - 1], size, rule) + BlockBits(blocks[|blocks| - 1], es[|es| - 1], size)
  }

  /** A stream so far: nothing, or its header and the blocks written. */
  ghost function OpenBits(started: bool, blocks: seq<seq<Byte>>, es: seq<Encoding>, size: nat, rule: CrcRule): Bits
    requires AllEncode(blocks, es, size, rule)
  {
    if started then BytesToBits(HeaderBytes(size)) + BlocksBits(blocks, es, size, rule) else []
  }

  /** The trailer. */
  function EndBits(blocks: seq<seq<Byte>>, rule: CrcRule): Bits {
    SectionBits(End(Joined(rule, blocks)))
  }

  /** The bits of a finished stream, padded to whole bytes. */
  ghost predicate Finished(bits: Bits, blocks: seq<seq<Byte>>, es: seq<Encoding>, size: nat, rule: CrcRule) {
    && AllEncode(blocks, es, size, rule)
    && exists pad: Bits :: |pad| < 8 && bits == OpenBits(true, blocks, es, size, rule) + EndBits(blocks, rule) + pad
  }

  lemma OneMoreBlock(blocks: seq<seq<Byte>>, es: seq<Encoding>, size: nat, rule: CrcRule, b: seq<Byte>, e: Encoding)
    requires AllEncode(blocks, es, size, rule) && BlockOk(b, e, size, rule)
    ensures AllEncode(blocks + [b], es + [e], size, rule)
    ensures OpenBits(true, blocks + [b], es + [e], size, rule) == OpenBits(true, blocks, es, size, rule) + BlockBits(b, e, size)
    ensures TextsOf(blocks + [b]) == TextsOf(blocks) + TextOf(b)
    ensures Joined(rule, blocks + [b]) == (rule.join)(Joined(rule, blocks), (rule.finish)(CrcOf(rule, TextOf(b))))
  {
    hide BlockBits, Encodes;
    assert (blocks + [b])[..|blocks|] == blocks && (es + [e])[..|es|] == es;
    AppendParts(BytesToBits(HeaderBytes(size)), BlocksBits(blocks, es, size, rule), BlockBits(b, e, size));
  }
}

/** Writing the packed format: a tag being filled, its place reserved in front of the bytes. */
module BlzEncoder {
  import opened Permutations
  import opened HeaderBits
  import opened BitStream
  import opened BlzFormat
  import opened BlzTokens

  const WORD := 0x1_0000_0000

  /** The bytes written so far agree with p but for the open tag's two. */
  ghost predicate Holds(dst: seq<Byte>, tagOut: nat, p: Packed) {
    tagOut == |p.closed| && |dst| == tagOut + 2 + |p.body| && dst[..tagOut] == p.closed && dst[tagOut + 2..] == p.body
  }

  lemma StoreTag(dst: seq<Byte>, tagOut: nat, p: Packed, tag: nat)
    requires Holds(dst, tagOut, p) && |p.bits| == TAG_BITS && BitsOf(tag, TAG_BITS) == p.bits
    ensures dst[tagOut := tag % 256][tagOut + 1 := tag / 256 % 256] == p.closed + TagBytes(p.bits) + p.body
  {
    var t := TagBytes(p.bits);
    TagValue(tag);
    var s := dst[tagOut := tag % 256][tagOut + 1 := tag / 256 % 256];
    assert s == dst[..tagOut] + t + dst[tagOut + 2..];
  }

  lemma TagValue(tag: nat)
    ensures ValueOf(BitsOf(tag, TAG_BITS)) % 256 == tag % 256
    ensures ValueOf(BitsOf(tag, TAG_BITS)) / 256 == tag / 256 % 256
    ensures ValueOf(BitsOf(tag, TAG_BITS)) < 0x1_0000
  {
    var low := tag % 0x1_0000;
    Truncated16(tag);
    assert Pow2(8) == 256;
    assert Pow2(16) == 65536;
    ValueOfBits(low, 16);
  }

  lemma Truncated16(x: nat)
    ensures BitsOf(x % 0x1_0000, 16) == BitsOf(x, 16)
  {
    var q, r := x / 0x1_0000, x % 0x1_0000;
    ShlByte(q);
    ShlByte(0x100 * q);
    ShlShl(q, 8, 8);
    HighBitsIgnored(r, q, 16);
  }

  lemma Truncated32(x: nat, k: nat)
    requires k <= 32
    ensures BitsOf(x % WORD, k) == BitsOf(x, k)
  {
    Truncated(x, k);
  }

  lemma ShiftedIn(tag: nat, bit: nat, k: nat)
    requires k < 32 && bit < 2
    ensures BitsOf((tag * 2 + bit) % WORD, k + 1) == BitsOf(tag, k) + [bit == 1]
    ensures k == 0 ==> BitsOf((tag * 2 + bit) % WORD, 1) == [bit == 1]
  {
    Truncated32(tag * 2 + bit, k + 1);
    assert (tag * 2 + bit) / 2 == tag;
    assert k == 0 ==> BitsOf(tag, k) + [bit == 1] == [bit == 1];
  }

  /** p with its open bits replaced by `all`, a full tag closed if there are more than one holds. */
  function Spread(p: Packed, all: Bits): (q: Packed)
    requires |all| <= 2 * TAG_BITS
    ensures |q.bits| <= TAG_BITS
  {
    if |all| <= TAG_BITS then p.(bits := all)
    else Packed(p.closed + TagBytes(all[..TAG_BITS]) + p.body, all[TAG_BITS..], [])
  }

  lemma SpreadStep(p: Packed, all: Bits, b: bool)
    requires |all| < 2 * TAG_BITS
    ensures Put(Spread(p, all), Bit(b)) == Spread(p, all + [b])
  {
    hide TagBytes;
    if |all| > TAG_BITS {
      assert (all + [b])[..TAG_BITS] == all[..TAG_BITS] && (all + [b])[TAG_BITS..] == all[TAG_BITS..] + [b];
    } else if |all| == TAG_BITS {
      assert (all + [b])[..TAG_BITS] == all && (all + [b])[TAG_BITS..] == [b];
    }
  }

  /** Putting bits at once is putting them one by one: they fill the open tag, and the rest starts the next. */
  lemma {:induction false} PutBitsAll(p: Packed, bits: Bits)
    requires |p.bits| <= TAG_BITS && |bits| <= TAG_BITS
    ensures PutAll(p, BitEvents(bits)) == Spread(p, p.bits + bits)
  {
    hide Spread, Put;
    if bits == [] {
      SpreadNone(p);
      assert BitEvents(bits) == [] && p.bits + bits == p.bits;
    } else {
      var front, last := bits[..|bits| - 1], bits[|bits| - 1];
      assert BitEvents(bits)[..|bits| - 1] == BitEvents(front);
      PutBitsAll(p, front);
      assert p.bits + bits == p.bits + front + [last];
      SpreadStep(p, p.bits + front, last);
    }
  }

  lemma SpreadNone(p: Packed)
    requires |p.bits| <= TAG_BITS
    ensures Spread(p, p.bits) == p
  {
  }

  class BlzState {
    var dst: seq<Byte>
    var tagOut: nat
    var tag: nat
    var bitsLeft: nat
    ghost var packed: Packed

    ghost predicate Valid()
      reads this
    {
      && |packed.bits| + bitsLeft == TAG_BITS && Holds(dst, tagOut, packed)
      && tag < WORD && BitsOf(tag, |packed.bits|) == packed.bits
    }

    /** The first byte as it is, and the first tag opened. */
    constructor (first: Byte)
      ensures Valid() && packed == Start(first)
    {
      dst, tagOut, tag, bitsLeft := [first, 0, 0], 1, 0, TAG_BITS;
      packed := Start(first);
    }

    method PutRaw(c: Byte)
      requires Valid()
      modifies this
      ensures Valid() && packed == Put(old(packed), Raw(c))
    {
      dst := dst + [c];
      packed := Put(packed, Raw(c));
    }

    /** Stores the tag, full now, and opens the next. */
    method NextTag(full: nat, ghost p: Packed)
      requires Holds(dst, tagOut, p) && |p.bits| == TAG_BITS && p.bits == BitsOf(full, TAG_BITS)
      modifies this`dst, this`tagOut
      ensures forall b: Bits :: Holds(dst, tagOut, Packed(p.closed + TagBytes(p.bits) + p.body, b, []))
    {
      StoreTag(dst, tagOut, p, full);
      dst := dst[tagOut := full % 256][tagOut + 1 := full / 256 % 256];
      tagOut := |dst|;
      dst := dst + [0, 0];
    }

    method PutBit(bit: nat)
      requires Valid() && bit < 2
      modifies this
      ensures Valid() && packed == Put(old(packed), Bit(bit == 1))
    {
      hide BitsOf, TagBytes;
      ghost var k := |packed.bits|;
      if bitsLeft == 0 {
        NextTag(tag, packed);
        bitsLeft := 15;
        k := 0;
      } else {
        bitsLeft := bitsLeft - 1;
      }
      packed := Put(packed, Bit(bit == 1));
      ShiftedIn(tag, bit, k);
      tag := (tag * 2 + bit) % WORD;
    }

    /** Puts num bits at once. */
    method PutBits(bits: nat, num: nat)
      requires Valid() && num <= TAG_BITS && bits < Pow2(num)
      modifies this
      ensures Valid() && packed == PutAll(old(packed), BitEvents(BitsOf(bits, num)))
    {
      ghost var all := packed.bits + BitsOf(bits, num);
      hide BitsOf, Shl, Shr, PutAll, TagBytes;
      PutBitsAll(packed, BitsOf(bits, num));
      BitsOfShifted(tag, bits, |packed.bits|, num);
      var wide := Shl(tag, num) + bits;
      if bitsLeft < num {
        var over := num - bitsLeft;
        WideTag(wide, all, over);
        NextTag(Shr(wide, over), packed.(bits := all[..TAG_BITS]));
        bitsLeft := bitsLeft + 16;
      }
      bitsLeft := bitsLeft - num;
      packed := Spread(packed, all);
      WideRest(wide, all);
      Truncated32(wide, |packed.bits|);
      tag := wide % WORD;
    }

    /** A one, and the bit of val below the last one put. */
    method PutPair(val: nat, k: nat, ghost was: Packed)
      requires Valid() && |was.bits| <= TAG_BITS && Shr(val, k + 1) >= 2
      requires packed == PutAll(was, BitEvents(GammaPrefix(Shr(val, k + 1))))
      modifies this
      ensures Valid() && Shr(val, k) >= 2 && packed == PutAll(was, BitEvents(GammaPrefix(Shr(val, k))))
    {
      hide Put, PutAll, GammaPrefix, Shr, Valid, HeaderBits.Bit;
      GammaGrows(val, k);
      BitIsShr(val, k);
      PutBit(1);
      PutBit(if HeaderBits.Bit(val, k) then 1 else 0);
      PutTwo(was, GammaPrefix(Shr(val, k + 1)), true, HeaderBits.Bit(val, k));
    }

    /** Puts val bit by bit, from the bit below its highest one. */
    method PutLongGamma(val: nat)
      requires Valid() && val >= 4
      modifies this
      ensures Valid() && packed == PutAll(old(packed), BitEvents(Gamma(val)))
    {
      ghost var was := packed;
      BitsFit();
      hide Put, PutAll, Gamma, GammaPrefix, Shr, Valid, Log2, HeaderBits.Bit;
      GammaStarts(val);
      var k: nat := Log2(val) - 1;
      BitIsShr(val, k);
      PutOne(was, [], HeaderBits.Bit(val, k));
      PutBit(if HeaderBits.Bit(val, k) then 1 else 0);
      while k > 0
        invariant Valid() && Shr(val, k) >= 2 && packed == PutAll(was, BitEvents(GammaPrefix(Shr(val, k))))
      {
        k := k - 1;
        PutPair(val, k, was);
      }
      GammaEnds(val);
      PutOne(was, GammaPrefix(val), false);
      PutBit(0);
    }

    lemma BitsFit()
      requires Valid()
      ensures |packed.bits| <= TAG_BITS
    {
    }

    /** Puts val as a gamma code, small values by lookup. */
    method PutGamma(val: nat)
      requires Valid() && val >= 2
      modifies this
      ensures Valid() && packed == PutAll(old(packed), BitEvents(Gamma(val)))
    {
      if val < 512 {
        EntryIsGamma(val);
        PutBits(GammaLookup(val).0, GammaLookup(val).1);
      } else {
        PutLongGamma(val);
      }
    }

    /** A literal: a zero bit and the byte. */
    method PutLiteral(x: seq<Byte>, cur: nat)
      requires Valid() && cur < |x|
      modifies this
      ensures Valid() && packed == PutAll(old(packed), TokenEvents(x, cur, Literal))
    {
      BitsFit();
      ghost var was := packed;
      hide Put, PutAll, Valid;
      PutBit(0);
      PutRaw(x[cur]);
      PutLiteralAll(was, x[cur]);
    }

    /** A match: a one bit, the codes of its length and of its offset's high part, the low byte. */
    method PutMatch(x: seq<Byte>, cur: nat, pos: nat, len: nat)
      requires Valid() && pos < cur < |x| && len >= 4
      modifies this
      ensures Valid() && packed == PutAll(old(packed), TokenEvents(x, cur, Match(pos, len)))
    {
      hide Put, PutAll, Valid, Gamma;
      BitsFit();
      ghost var was := packed;
      var offs := cur - pos - 1;
      PutBit(1);
      PutGamma(len - 2);
      PutGamma(offs / 256 + 2);
      PutRaw(offs % 256);
      PutMatchAll(was, BitEvents(Gamma(len - 2)), BitEvents(Gamma(offs / 256 + 2)), offs % 256);
    }

    /** The one bit that ends the stream; the last tag is shifted into place and stored. */
    method Finalize() returns (out: seq<Byte>)
      requires Valid()
      modifies this
      ensures out == Finish(old(packed))
    {
      PutBit(1);
      var full := Shl(tag, bitsLeft);
      ghost var p := packed.(bits := packed.bits + Zeros(bitsLeft));
      ZeroBits(bitsLeft);
      Pow2Positive(bitsLeft);
      BitsOfShifted(tag, 0, |packed.bits|, bitsLeft);
      StoreTag(dst, tagOut, p, full);
      dst := dst[tagOut := full % 256][tagOut + 1 := full / 256 % 256];
      out := dst;
    }
  }

  lemma PutSingle(was: Packed, e: Event)
    requires |was.bits| <= TAG_BITS
    ensures PutAll(was, [e]) == Put(was, e)
  {
    assert [e][..0] == [];
    assert PutAll(was, []) == was;
  }

  lemma PutLiteralAll(was: Packed, c: Byte)
    requires |was.bits| <= TAG_BITS
    ensures Put(Put(was, Bit(false)), Raw(c)) == PutAll(was, [Bit(false), Raw(c)])
  {
    hide Put, PutAll;
    PutSingle(was, Bit(false));
    PutSingle(Put(was, Bit(false)), Raw(c));
    PutAllConcat(was, [Bit(false)], [Raw(c)]);
    assert [Bit(false)] + [Raw(c)] == [Bit(false), Raw(c)];
  }

  lemma PutMatchAll(was: Packed, l: seq<Event>, o: seq<Event>, c: Byte)
    requires |was.bits| <= TAG_BITS
    ensures Put(PutAll(PutAll(Put(was, Bit(true)), l), o), Raw(c)) == PutAll(was, [Bit(true)] + (l + (o + [Raw(c)])))
  {
    hide Put, PutAll;
    PutSingle(was, Bit(true));
    var a := Put(was, Bit(true));
    PutAllConcat(was, [Bit(true)], l + (o + [Raw(c)]));
    PutAllConcat(a, l, o + [Raw(c)]);
    PutAllConcat(PutAll(a, l), o, [Raw(c)]);
    PutSingle(PutAll(PutAll(a, l), o), Raw(c));
  }

  lemma {:induction false} ZeroBits(n: nat)
    ensures BitsOf(0, n) == Zeros(n)
  {
    if n > 0 {
      ZeroBits(n - 1);
      assert Zeros(n) == Zeros(n - 1) + [false];
    }
  }

  lemma PutOne(was: Packed, front: Bits, b: bool)
    requires |was.bits| <= TAG_BITS
    ensures Put(PutAll(was, BitEvents(front)), Bit(b)) == PutAll(was, BitEvents(front + [b]))
  {
    hide *;
    LastPut(was, BitEvents(front + [b]));
    EventsFront(front, b);
  }

  lemma EventsFront(front: Bits, b: bool)
    ensures var es := BitEvents(front + [b]); es != [] && es[..|es| - 1] == BitEvents(front) && es[|es| - 1] == Bit(b)
  {
  }

  lemma LastPut(was: Packed, es: seq<Event>)
    requires |was.bits| <= TAG_BITS && es != []
    ensures PutAll(was, es) == Put(PutAll(was, es[..|es| - 1]), es[|es| - 1])
  {
  }

  lemma PutTwo(was: Packed, front: Bits, a: bool, b: bool)
    requires |was.bits| <= TAG_BITS
    ensures Put(Put(PutAll(was, BitEvents(front)), Bit(a)), Bit(b)) == PutAll(was, BitEvents(front + [a, b]))
  {
    hide *;
    PutOne(was, front, a);
    PutOne(was, front + [a], b);
    assert front + [a] + [b] == front + [a, b];
  }

  lemma {:induction false} BitIsShr(v: nat, k: nat)
    ensures HeaderBits.Bit(v, k) <==> Shr(v, k) % 2 == 1
    decreases k
  {
    if k > 0 {
      BitIsShr(v / 2, k - 1);
    }
  }

  lemma {:induction false} ShrStep(v: nat, k: nat)
    ensures Shr(v, k) / 2 == Shr(v, k + 1)
    decreases k
  {
    if k > 0 {
      ShrStep(v / 2, k - 1);
    }
  }

  lemma {:induction false} GammaTop(v: nat)
    requires v >= 2
    ensures 2 <= Shr(v, Log2(v) - 1) < 4
    decreases v
  {
    if v >= 4 {
      GammaTop(v / 2);
    }
  }

  lemma GammaStarts(v: nat)
    requires v >= 4
    ensures var k := Log2(v) - 1;
            k >= 1 && 2 <= Shr(v, k) < 4 && GammaPrefix(Shr(v, k)) == [Shr(v, k) % 2 == 1] && [] + [Shr(v, k) % 2 == 1] == [Shr(v, k) % 2 == 1]
    ensures forall p: Packed :: |p.bits| <= TAG_BITS ==> PutAll(p, BitEvents([])) == p
  {
    GammaTop(v);
    assert BitEvents([]) == [];
  }

  lemma GammaGrows(v: nat, k: nat)
    requires Shr(v, k + 1) >= 2
    ensures Shr(v, k) >= 4 && GammaPrefix(Shr(v, k)) == GammaPrefix(Shr(v, k + 1)) + [true, Shr(v, k) % 2 == 1]
  {
    ShrStep(v, k);
  }

  lemma GammaEnds(v: nat)
    requires v >= 2
    ensures Shr(v, 0) == v && Gamma(v) == GammaPrefix(v) + [false]
  {
  }

  /** The code of v and its number of bits, as the table of small values lists them. */
  function GammaLookup(v: nat): (e: (nat, nat))
    requires v >= 2
    ensures e.0 % 2 == 0
  {
    if v < 4 then (v % 2 * 2, 2) else ((GammaLookup(v / 2).0 + 1) * 4 + v % 2 * 2, GammaLookup(v / 2).1 + 2)
  }

  lemma LastBitSet(c: nat, n: nat, front: Bits)
    requires c % 2 == 0 && n > 0 && BitsOf(c, n) == front + [false] && c < Pow2(n)
    ensures BitsOf(c + 1, n) == front + [true] && c + 1 < Pow2(n)
  {
    assert (c + 1) / 2 == c / 2;
    assert front + [false] == BitsOf(c / 2, n - 1) + [false];
    assert front == (front + [false])[..n - 1];
    assert Pow2(n) == 2 * Pow2(n - 1);
  }

  /** The table agrees with the code built bit by bit. */
  lemma {:induction false} EntryIsGamma(v: nat)
    requires v >= 2
    ensures GammaLookup(v).1 == 2 * Log2(v) && GammaLookup(v).0 < Pow2(GammaLookup(v).1)
    ensures BitsOf(GammaLookup(v).0, GammaLookup(v).1) == Gamma(v)
    ensures v < 512 ==> GammaLookup(v).1 <= 16
    decreases v
  {
    var b := v % 2 == 1;
    if v < 4 {
      assert Pow2(2) == 4;
      assert BitsOf(v % 2 * 2, 2) == BitsOf(v % 2, 1) + [false];
      assert BitsOf(v % 2, 1) == BitsOf(0, 0) + [b];
    } else {
      EntryIsGamma(v / 2);
      var c, n := GammaLookup(v / 2).0, GammaLookup(v / 2).1;
      LastBitSet(c, n, GammaPrefix(v / 2));
      var x := (c + 1) * 4 + v % 2 * 2;
      assert x / 2 == (c + 1) * 2 + v % 2 && x / 2 / 2 == c + 1 && x % 2 == 0 && x / 2 % 2 == v % 2;
      assert BitsOf(x, n + 2) == BitsOf(c + 1, n) + [b] + [false];
      assert Pow2(n + 2) == 4 * Pow2(n);
      assert GammaPrefix(v / 2) + [true] + [b] + [false] == GammaPrefix(v / 2) + [true, b] + [false];
      SmallLog(v);
    }
  }

  lemma SmallLog(v: nat)
    ensures v < 512 ==> Log2(v) <= 8
  {
    LogBelow(v, 8);
    assert Pow2(9) == 512;
  }

  lemma {:induction false} LogBelow(v: nat, n: nat)
    ensures v < Pow2(n + 1) ==> Log2(v) <= n
    decreases n
  {
    if n > 0 {
      LogBelow(v / 2, n - 1);
    }
  }

  /** The first sixteen bits of a wider tag, and what is over. */
  lemma WideTag(wide: nat, all: Bits, over: nat)
    requires |all| == TAG_BITS + over && all == BitsOf(wide, |all|)
    ensures BitsOf(Shr(wide, over), TAG_BITS) == all[..TAG_BITS]
  {
    BitsOfShr(wide, TAG_BITS, over);
  }

  lemma WideRest(wide: nat, all: Bits)
    requires all == BitsOf(wide, |all|)
    ensures |all| > TAG_BITS ==> BitsOf(wide, |all| - TAG_BITS) == all[TAG_BITS..]
  {
    if |all| > TAG_BITS {
      BitsOfTail(wide, TAG_BITS, |all| - TAG_BITS);
    }
  }
}

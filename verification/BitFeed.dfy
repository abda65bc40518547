/** Bits taken from input that arrives piece by piece. */
module BitFeed {
  import opened Permutations
  import opened HeaderBits
  import opened BitStream
  import opened Streams

  /** What one input is left of another after some of it has been taken. */
  ghost predicate TakenOf(i0: seq<Byte>, a0: seq<Byte>, i1: seq<Byte>, a1: seq<Byte>) {
    && |i1| <= |i0| <= |a0| && |a1| == |a0| - (|i0| - |i1|)
    && i1 == i0[|i0| - |i1|..] && a1 == a0[|i0| - |i1|..]
  }

  lemma TakenNone(i: seq<Byte>, a: seq<Byte>)
    requires |i| <= |a|
    ensures TakenOf(i, a, i, a)
  {
  }

  lemma TakenTwice(i0: seq<Byte>, a0: seq<Byte>, i1: seq<Byte>, a1: seq<Byte>, i2: seq<Byte>, a2: seq<Byte>)
    requires TakenOf(i0, a0, i1, a1) && TakenOf(i1, a1, i2, a2)
    ensures TakenOf(i0, a0, i2, a2)
  {
  }

  lemma TakenAhead(i0: seq<Byte>, a0: seq<Byte>, i1: seq<Byte>, a1: seq<Byte>)
    requires TakenOf(i0, a0, i1, a1) && i0 <= a0
    ensures i1 <= a1
  {
  }

  /**
   * bsLive bits at the bottom of the buffer, and the bytes that are still to come, however the caller cuts
   * them into pieces.
   */
  class Feed {
    var bsBuff: nat
    var bsLive: nat
    ghost var ahead: seq<Byte>

    ghost predicate Valid()
      reads this
    {
      bsLive <= 32
    }

    /** Every bit not yet delivered. */
    ghost function Pending(): Bits
      reads this
    {
      BitsOf(bsBuff, bsLive) + BytesToBits(ahead)
    }

    constructor (ghost bytes: seq<Byte>)
      ensures Valid() && Pending() == BytesToBits(bytes) && ahead == bytes
    {
      bsBuff, bsLive, ahead := 0, 0, bytes;
    }

    method TakeByte(strm: Strm)
      requires Valid() && bsLive <= 24 && strm.input != [] && strm.input <= ahead
      modifies this, strm`input
      ensures Valid() && Pending() == old(Pending()) && bsLive == old(bsLive) + 8
      ensures strm.input == old(strm.input)[1..] && ahead == old(ahead)[1..]
    {
      hide BitsOf, BytesToBits;
      ByteIn(bsBuff, bsLive, strm.input[0]);
      BytesToBitsHead(ahead, 0);
      assert ahead[0..] == ahead;
      bsBuff := (bsBuff * 256 + strm.input[0]) % 0x1_0000_0000;
      bsLive := bsLive + 8;
      strm.input := strm.input[1..];
      ahead := ahead[1..];
    }

    /**
     * The next n bits as a number, if the input there is has them; if not, all of it has been taken into
     * the buffer, and nothing of what is pending is lost.
     */
    method GetBits(strm: Strm, n: nat) returns (ok: bool, v: nat)
      requires Valid() && n <= 24 && strm.input <= ahead
      modifies this, strm`input
      ensures Valid() && TakenOf(old(strm.input), old(ahead), strm.input, ahead)
      ensures ok ==> n <= |old(Pending())| && v == ValueOf(old(Pending())[..n]) && Pending() == old(Pending())[n..]
      ensures !ok ==> Pending() == old(Pending()) && strm.input == [] && (ahead == [] ==> |Pending()| < n)
      ensures old(bsLive) == 0 && n == 8 ==>
                bsLive == 0 && if ok then old(ahead) != [] && v == old(ahead)[0] && ahead == old(ahead)[1..] else ahead == old(ahead)
    {
      hide BitsOf, BytesToBits, Low, Shr, ValueOf;
      if bsLive == 0 && n == 8 { WholeByte(); }
      while bsLive < n
        invariant Valid() && Pending() == old(Pending()) && TakenOf(old(strm.input), old(ahead), strm.input, ahead)
        invariant old(bsLive) == 0 && n == 8 ==>
                    if bsLive == 0 then ahead == old(ahead) else bsLive == 8 && old(ahead) != [] && ahead == old(ahead)[1..]
        decreases |strm.input|
      {
        if strm.input == [] {
          NothingAhead();
          return false, 0;
        }
        TakeByte(strm);
      }
      TopBits(bsBuff, bsLive, n, BytesToBits(ahead));
      v := Low(Shr(bsBuff, bsLive - n), n);
      bsLive := bsLive - n;
      ok := true;
    }

    /** With no bits in the buffer the next eight are the next byte. */
    lemma WholeByte()
      requires bsLive == 0
      ensures ahead != [] ==> 8 <= |Pending()| && ValueOf(Pending()[..8]) == ahead[0]
    {
      hide BytesToBits;
      if ahead != [] {
        BytesToBitsHead(ahead, 0);
        assert ahead[0..] == ahead;
        assert Pending() == BitsOf(ahead[0], 8) + BytesToBits(ahead[1..]);
        assert Pow2(8) == 256;
        ValueOfBits(ahead[0], 8);
        assert Pending()[..8] == BitsOf(ahead[0], 8);
      }
    }

    lemma NothingAhead()
      ensures ahead == [] ==> |Pending()| == bsLive
    {
    }
  }
}

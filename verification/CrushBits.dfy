/** Bits packed lowest first, as crush packs them. */
module CrushBits {
  import opened Permutations
  import opened HeaderBits
  import opened BitStream

  /** The n low bits of v, lowest first. */
  function LowBits(v: nat, n: nat): (b: Bits)
    ensures |b| == n
  {
    if n == 0 then [] else [v % 2 == 1] + LowBits(v / 2, n - 1)
  }

  function LowestFirst(b: Bits): nat {
    if b == [] then 0 else (if b[0] then 1 else 0) + 2 * LowestFirst(b[1..])
  }

  lemma {:induction false} ValueOfLowBits(v: nat, n: nat)
    requires v < Pow2(n)
    ensures LowestFirst(LowBits(v, n)) == v
  {
    if n > 0 {
      ValueOfLowBits(v / 2, n - 1);
      assert LowBits(v, n)[1..] == LowBits(v / 2, n - 1);
    }
  }

  lemma {:induction false} LowBitsOfValue(b: Bits)
    ensures LowBits(LowestFirst(b), |b|) == b && LowestFirst(b) < Pow2(|b|)
  {
    if b != [] {
      LowBitsOfValue(b[1..]);
      assert b == [b[0]] + b[1..];
    }
  }

  /** A number over another's bits comes behind them. */
  lemma {:induction false} LowBitsAppend(v: nat, m: nat, w: nat, n: nat)
    requires v < Pow2(m)
    ensures LowBits(v + Shl(w, m), m + n) == LowBits(v, m) + LowBits(w, n)
    decreases m
  {
    if m == 0 {
      assert LowBits(v, 0) + LowBits(w, n) == LowBits(w, n);
    } else {
      LowBitsAppend(v / 2, m - 1, w, n);
      var u := v + Shl(w, m);
      assert u == v + 2 * Shl(w, m - 1);
      assert u / 2 == v / 2 + Shl(w, m - 1) && u % 2 == v % 2;
      assert LowBits(u, m + n) == [u % 2 == 1] + LowBits(u / 2, m + n - 1);
    }
  }

  lemma {:induction false} SumBound(v: nat, m: nat, w: nat, n: nat)
    requires v < Pow2(m) && w < Pow2(n)
    ensures v + Shl(w, m) < Pow2(m + n)
    decreases m
  {
    if m == 0 {
      assert Shl(w, 0) == w;
    } else {
      SumBound(v / 2, m - 1, w, n);
      assert v + Shl(w, m) <= 2 * (v / 2 + Shl(w, m - 1)) + 1;
      assert Pow2(m + n) == 2 * Pow2(m - 1 + n);
    }
  }

  /** Eight bits at a time. */
  lemma LowByte(v: nat, n: nat)
    ensures LowBits(v, 8 + n) == LowBits(v % 256, 8) + LowBits(v / 256, n)
    ensures v < Pow2(8 + n) ==> v / 256 < Pow2(n)
  {
    Pow2Bytes();
    LowBitsAppend(v % 256, 8, v / 256, n);
    ShlByte(v / 256);
    EightMore(n);
  }

  lemma EightMore(n: nat)
    ensures Pow2(n + 8) == 256 * Pow2(n)
  {
    assert Pow2(n + 2) == 2 * Pow2(n + 1) == 4 * Pow2(n);
    assert Pow2(n + 5) == 2 * Pow2(n + 4) == 4 * Pow2(n + 3) == 8 * Pow2(n + 2);
    assert Pow2(n + 8) == 2 * Pow2(n + 7) == 4 * Pow2(n + 6) == 8 * Pow2(n + 5);
  }

  /** The low bits come off by masking, the rest by shifting. */
  lemma {:induction false} CutLow(v: nat, n: nat, k: nat)
    ensures LowBits(v, n + k) == LowBits(v, n) + LowBits(Shr(v, n), k)
    decreases n
  {
    var first := [v % 2 == 1];
    if n == 0 {
      assert LowBits(v, 0) + LowBits(v, k) == LowBits(v, k);
    } else {
      CutLow(v / 2, n - 1, k);
      assert first + (LowBits(v / 2, n - 1) + LowBits(Shr(v, n), k)) == first + LowBits(v / 2, n - 1) + LowBits(Shr(v, n), k);
    }
  }

  lemma {:induction false} MaskedLow(v: nat, n: nat)
    ensures BitStream.Low(v, n) == LowestFirst(LowBits(v, n))
  {
    if n > 0 {
      MaskedLow(v / 2, n - 1);
      assert LowBits(v, n)[1..] == LowBits(v / 2, n - 1);
    }
  }

  function BytesBits(s: seq<Byte>): (b: Bits)
    ensures |b| == 8 * |s|
  {
    if s == [] then [] else LowBits(s[0], 8) + BytesBits(s[1..])
  }

  lemma {:induction false} BytesBitsSnoc(s: seq<Byte>, c: Byte)
    ensures BytesBits(s + [c]) == BytesBits(s) + LowBits(c, 8)
  {
    if s == [] {
      assert s + [c] == [c] && [c][1..] == [];
      assert LowBits(c, 8) + BytesBits([]) == LowBits(c, 8) && BytesBits(s) + LowBits(c, 8) == LowBits(c, 8);
    } else {
      BytesBitsSnoc(s[1..], c);
      assert (s + [c])[1..] == s[1..] + [c];
      assert LowBits(s[0], 8) + (BytesBits(s[1..]) + LowBits(c, 8)) == LowBits(s[0], 8) + BytesBits(s[1..]) + LowBits(c, 8);
    }
  }

  lemma BytesBitsFirst(s: seq<Byte>, i: nat)
    requires i < |s|
    ensures BytesBits(s[i..]) == LowBits(s[i], 8) + BytesBits(s[i + 1..])
  {
    assert s[i..][1..] == s[i + 1..];
  }

  /** At most this many bits are put or taken at once; with what is pending a 32-bit word holds them. */
  const MAX_BITS := 20

  class BitSink {
    const outbuf: array<Byte>
    var pos: nat
    var bitBuf: nat
    var bitCount: nat

    ghost predicate Valid()
      reads this
    {
      pos <= outbuf.Length && bitCount < 8 && bitBuf < Pow2(bitCount)
    }

    ghost function Emitted(): (b: Bits)
      requires pos <= outbuf.Length
      reads this, outbuf
    {
      BytesBits(outbuf[..pos]) + LowBits(bitBuf, bitCount)
    }

    constructor (out: array<Byte>)
      ensures Valid() && outbuf == out && Emitted() == [] && pos == 0
    {
      outbuf, pos, bitBuf, bitCount := out, 0, 0, 0;
    }

    /** Puts the n low bits of x, which has no others. */
    method PutBits(n: nat, x: nat)
      requires Valid() && n <= MAX_BITS && x < Pow2(n)
      requires |Emitted()| + n <= 8 * outbuf.Length
      modifies this, outbuf
      ensures Valid() && Emitted() == old(Emitted()) + LowBits(x, n)
    {
      SumBound(bitBuf, bitCount, x, n);
      LowBitsAppend(bitBuf, bitCount, x, n);
      PutFits(bitCount + n);
      ghost var was, all := outbuf[..pos], old(Emitted()) + LowBits(x, n);
      bitBuf := bitBuf + Shl(x, bitCount);
      bitCount := bitCount + n;
      assert Emitted() == all;
      while bitCount >= 8
        invariant pos <= outbuf.Length && bitBuf < Pow2(bitCount) && bitBuf <= 0x7FFF_FFFF && Emitted() == all
      {
        PutByte();
      }
    }

    method PutByte()
      requires 8 <= bitCount && bitBuf < Pow2(bitCount) && pos <= outbuf.Length && 8 * pos + bitCount <= 8 * outbuf.Length
      modifies this, outbuf
      ensures bitCount == old(bitCount) - 8 && bitBuf < Pow2(bitCount) && pos <= outbuf.Length && bitBuf <= old(bitBuf)
      ensures Emitted() == old(Emitted())
    {
      LowByte(bitBuf, bitCount - 8);
      BytesBitsSnoc(outbuf[..pos], bitBuf % 256);
      ghost var was := outbuf[..pos];
      outbuf[pos] := bitBuf % 256;
      pos := pos + 1;
      assert outbuf[..pos] == was + [bitBuf % 256];
      bitBuf := bitBuf / 256;
      bitCount := bitCount - 8;
    }

    /** Puts as many zeros as complete the last byte. */
    method FlushBits()
      requires Valid() && |Emitted()| + 7 <= 8 * outbuf.Length
      modifies this, outbuf
      ensures Valid() && bitCount == 0
      ensures |BytesBits(outbuf[..pos])| <= |old(Emitted())| + 7 && old(Emitted()) <= BytesBits(outbuf[..pos])
    {
      PutBits(7, 0);
      ghost var whole := BytesBits(outbuf[..pos]);
      assert whole == Emitted()[..|whole|];
      bitBuf, bitCount := 0, 0;
    }
  }

  lemma PutFits(n: nat)
    requires n <= 31
    ensures Pow2(n) <= 0x8000_0000
  {
    Pow2Of32();
    PowersGrow(n, 31);
  }

  lemma {:induction false} PowersGrow(a: nat, b: nat)
    requires a <= b
    ensures Pow2(a) <= Pow2(b)
    decreases b
  {
    if a < b {
      PowersGrow(a, b - 1);
    }
  }

  class BitSource {
    const inbuf: seq<Byte>
    var pos: nat
    var bitBuf: nat
    var bitCount: nat

    ghost predicate Valid()
      reads this
    {
      pos <= |inbuf| && bitCount < 8 && bitBuf < Pow2(bitCount)
    }

    ghost function Left(): (b: Bits)
      requires pos <= |inbuf|
      reads this
    {
      LowBits(bitBuf, bitCount) + BytesBits(inbuf[pos..])
    }

    constructor (bytes: seq<Byte>)
      ensures Valid() && Left() == BytesBits(bytes) && inbuf == bytes
    {
      inbuf, pos, bitBuf, bitCount := bytes, 0, 0, 0;
    }

    method TakeByte()
      requires pos < |inbuf| && bitCount < MAX_BITS && bitBuf < Pow2(bitCount)
      modifies this
      ensures pos <= |inbuf| && bitCount == old(bitCount) + 8 && bitBuf < Pow2(bitCount) && Left() == old(Left())
    {
      var c := inbuf[pos];
      Pow2Bytes();
      SumBound(bitBuf, bitCount, c, 8);
      LowBitsAppend(bitBuf, bitCount, c, 8);
      BytesBitsFirst(inbuf, pos);
      assert Left() == LowBits(bitBuf, bitCount) + LowBits(c, 8) + BytesBits(inbuf[pos + 1..]);
      bitBuf := bitBuf + Shl(c, bitCount);
      pos := pos + 1;
      bitCount := bitCount + 8;
    }

    /** The next n bits as a number. Only as many bytes are read as hold them. */
    method GetBits(n: nat) returns (x: nat)
      requires Valid() && n <= MAX_BITS && n <= |Left()|
      modifies this
      ensures Valid() && x == LowestFirst(old(Left())[..n]) && Left() == old(Left())[n..] && x < Pow2(n)
    {
      LowBitsOfValue(Left()[..n]);
      while bitCount < n
        invariant pos <= |inbuf| && bitCount < 8 + n && bitBuf < Pow2(bitCount) && Left() == old(Left())
      {
        TakeByte();
      }
      x := GiveBits(n);
    }

    method GiveBits(n: nat) returns (x: nat)
      requires pos <= |inbuf| && n <= bitCount < 8 + n && bitBuf < Pow2(bitCount)
      modifies this
      ensures Valid() && x == LowestFirst(old(Left())[..n]) && Left() == old(Left())[n..]
    {
      CutLow(bitBuf, n, bitCount - n);
      MaskedLow(bitBuf, n);
      ShrBound(bitBuf, bitCount - n, n);
      assert Left() == LowBits(bitBuf, n) + (LowBits(Shr(bitBuf, n), bitCount - n) + BytesBits(inbuf[pos..]));
      x := BitStream.Low(bitBuf, n);
      bitBuf := Shr(bitBuf, n);
      bitCount := bitCount - n;
    }
  }
}

/** Bit-level output and input of the block coder, most significant bit first. */
module BitStream {
  import opened Permutations
  import opened HeaderBits

  type Bits = seq<bool>

  /** The n low bits of v, highest first. */
  function BitsOf(v: nat, n: nat): (b: Bits)
    ensures |b| == n
  {
    if n == 0 then [] else BitsOf(v / 2, n - 1) + [v % 2 == 1]
  }

  function ValueOf(b: Bits): nat {
    if b == [] then 0 else 2 * ValueOf(b[..|b| - 1]) + if b[|b| - 1] then 1 else 0
  }

  /** x shifted left by k bits. */
  function Shl(x: nat, k: nat): nat {
    if k == 0 then x else 2 * Shl(x, k - 1)
  }

  lemma {:induction false} ShlSum(x: nat, y: nat, k: nat)
    ensures Shl(x + y, k) == Shl(x, k) + Shl(y, k)
  {
    if k > 0 {
      ShlSum(x, y, k - 1);
    }
  }

  lemma {:induction false} ShlShl(x: nat, a: nat, b: nat)
    ensures Shl(Shl(x, a), b) == Shl(x, a + b)
    decreases b
  {
    if b > 0 {
      ShlShl(x, a, b - 1);
    }
  }

  lemma {:induction false} ShlBound(x: nat, a: nat, k: nat)
    requires x < Pow2(a)
    ensures Shl(x, k) < Pow2(a + k)
    decreases k
  {
    if k > 0 {
      ShlBound(x, a, k - 1);
      assert Pow2(a + k) == 2 * Pow2(a + k - 1);
    }
  }

  lemma ShlByte(x: nat)
    ensures Shl(x, 8) == 0x100 * x
  {
    assert Shl(x, 1) == 2 * x;
    assert Shl(x, 2) == 4 * x;
    assert Shl(x, 3) == 8 * x;
    assert Shl(x, 4) == 16 * x;
    assert Shl(x, 5) == 32 * x;
    assert Shl(x, 6) == 64 * x;
    assert Shl(x, 7) == 128 * x;
  }

  lemma {:induction false} ShlZero(k: nat)
    ensures Shl(0, k) == 0
  {
    if k > 0 {
      ShlZero(k - 1);
    }
  }

  lemma ShlBytes(x: nat)
    ensures Shl(x, 8) == 0x100 * x && Shl(x, 24) == 0x100_0000 * x
  {
    ShlByte(x);
    ShlByte(0x100 * x);
    ShlByte(0x1_0000 * x);
    ShlShl(x, 8, 8);
    ShlShl(x, 16, 8);
  }

  lemma Pow2Bytes()
    ensures Pow2(8) == 0x100 && Pow2(24) == 0x100_0000 && Pow2(32) == 0x1_0000_0000
  {
    Pow2Of32();
    assert Pow2(16) == 0x1_0000;
    assert Pow2(20) == 0x10_0000;
  }

  lemma {:induction false} ValueBound(b: Bits)
    ensures ValueOf(b) < Pow2(|b|)
  {
    if b != [] {
      ValueBound(b[..|b| - 1]);
    }
  }

  lemma {:induction false} BitsOfValue(b: Bits)
    ensures BitsOf(ValueOf(b), |b|) == b
  {
    if b != [] {
      var t := b[..|b| - 1];
      BitsOfValue(t);
      assert ValueOf(b) / 2 == ValueOf(t);
      assert b == t + [b[|b| - 1]];
    }
  }

  lemma {:induction false} ValueOfBits(v: nat, n: nat)
    requires v < Pow2(n)
    ensures ValueOf(BitsOf(v, n)) == v
  {
    if n != 0 {
      var h, last := v / 2, [v % 2 == 1];
      ValueOfBits(h, n - 1);
      assert BitsOf(v, n) == BitsOf(h, n - 1) + last;
      assert BitsOf(v, n)[..n - 1] == BitsOf(h, n - 1);
    }
  }

  lemma {:induction false} ValueOfConcat(s: Bits, t: Bits)
    ensures ValueOf(s + t) == Shl(ValueOf(s), |t|) + ValueOf(t)
    decreases |t|
  {
    if t == [] {
      assert s + t == s;
    } else {
      ValueOfConcat(s, t[..|t| - 1]);
      assert (s + t)[..|s + t| - 1] == s + t[..|t| - 1];
    }
  }

  /** Shifting in low bits appends them. */
  lemma {:induction false} BitsOfShifted(v: nat, w: nat, m: nat, n: nat)
    requires w < Pow2(n)
    ensures BitsOf(Shl(v, n) + w, m + n) == BitsOf(v, m) + BitsOf(w, n)
    decreases n
  {
    if n == 0 {
      assert BitsOf(v, m) + [] == BitsOf(v, m);
    } else {
      var x := Shl(v, n) + w;
      assert x / 2 == Shl(v, n - 1) + w / 2 && x % 2 == w % 2;
      BitsOfShifted(v, w / 2, m, n - 1);
      assert BitsOf(v, m) + BitsOf(w, n) == BitsOf(v, m) + BitsOf(w / 2, n - 1) + [w % 2 == 1];
    }
  }

  /** The bits of a sequence of bytes. */
  function BytesToBits(s: seq<Byte>): (b: Bits)
    ensures |b| == 8 * |s|
  {
    if s == [] then [] else BytesToBits(s[..|s| - 1]) + BitsOf(s[|s| - 1], 8)
  }

  lemma {:induction false} BytesToBitsConcat(s: seq<Byte>, t: seq<Byte>)
    ensures BytesToBits(s + t) == BytesToBits(s) + BytesToBits(t)
    decreases |t|
  {
    if t == [] {
      assert s + t == s;
      assert BytesToBits(s) + [] == BytesToBits(s);
    } else {
      var u := t[..|t| - 1];
      BytesToBitsConcat(s, u);
      assert (s + t)[..|s + t| - 1] == s + u;
    }
  }

  /** The pending bits sit at the top of the 32-bit buffer, zeros below. */
  ghost predicate TopAligned(buff: nat, live: Bits) {
    |live| <= 32 && buff == Shl(ValueOf(live), 32 - |live|)
  }

  lemma BufferShift(buff: nat, h: nat, r: nat)
    requires buff == h * 0x100_0000 + r && h < 256 && r < 0x100_0000
    ensures buff / 0x100_0000 == h && buff * 256 % 0x1_0000_0000 == r * 256
  {
  }

  /** Moving the top byte out of the buffer. */
  lemma TopByte(buff: nat, live: Bits)
    requires TopAligned(buff, live) && |live| >= 8
    ensures buff / 0x100_0000 < 256 && BitsOf(buff / 0x100_0000, 8) == live[..8]
    ensures TopAligned(buff * 256 % 0x1_0000_0000, live[8..])
  {
    var h, t, k := live[..8], live[8..], 32 - |live|;
    assert live == h + t && |t| + k == 24 && 8 + k == 32 - |t|;
    var x, y := ValueOf(h), ValueOf(t);
    assert ValueOf(live) == Shl(x, |t|) + y by {
      ValueOfConcat(h, t);
    }
    assert x < 256 && BitsOf(x, 8) == h && Shl(y, k) < 0x100_0000 by {
      ValueBound(h);
      BitsOfValue(h);
      ValueBound(t);
      ShlBound(y, |t|, k);
      Pow2Bytes();
    }
    hide ValueOf, Shl, BitsOf;
    AppendShl(x, y, |t|, k);
    ShlBytes(x);
    BufferShift(buff, x, Shl(y, k));
    ShlBytes(Shl(y, k));
    ShlShl(y, k, 8);
  }

  /** Or-ing n new bits in right below the pending ones adds them. */
  lemma AppendBits(buff: nat, live: Bits, n: nat, v: nat)
    requires TopAligned(buff, live) && |live| + n <= 32 && v < Pow2(n)
    ensures TopAligned(buff + Shl(v, 32 - |live| - n), live + BitsOf(v, n))
  {
    hide ValueOf, Shl, BitsOf, Pow2;
    var k, live' := 32 - |live| - n, live + BitsOf(v, n);
    ValueOfConcat(live, BitsOf(v, n));
    ValueOfBits(v, n);
    AppendShl(ValueOf(live), v, n, k);
    assert n + k == 32 - |live| && k == 32 - |live'|;
  }

  lemma AppendShl(x: nat, v: nat, n: nat, k: nat)
    ensures Shl(x, n + k) + Shl(v, k) == Shl(Shl(x, n) + v, k)
  {
    ShlShl(x, n, k);
    ShlSum(Shl(x, n), v, k);
  }

  lemma ByteOut(zbits: seq<Byte>, c: Byte, live: Bits)
    requires |live| >= 8 && BitsOf(c, 8) == live[..8]
    ensures BytesToBits(zbits + [c]) + live[8..] == BytesToBits(zbits) + live
  {
    assert (zbits + [c])[..|zbits|] == zbits;
    assert live == live[..8] + live[8..];
  }

  /** The output side: whole bytes in zbits, up to 31 bits still in the buffer. */
  class BitWriter {
    var bsBuff: nat
    var bsLive: nat
    var zbits: seq<Byte>
    ghost var live: Bits

    ghost predicate Valid()
      reads this
    {
      TopAligned(bsBuff, live) && |live| == bsLive
    }

    /** Every bit written so far. */
    ghost function Contents(): Bits
      reads this
    {
      BytesToBits(zbits) + live
    }

    /** Starts a new run of output bytes, the ones before having been taken. */
    method Restart()
      requires Valid()
      modifies this
      ensures Valid() && zbits == [] && BytesToBits(old(zbits)) + Contents() == old(Contents())
    {
      assert BytesToBits([]) + live == live;
      zbits := [];
    }

    constructor ()
      ensures Valid() && Contents() == [] && bsLive == 0 && zbits == []
    {
      bsBuff, bsLive, zbits, live := 0, 0, [], [];
      ShlZero(32);
    }

    method NeedW()
      requires Valid()
      modifies this
      ensures Valid() && bsLive < 8 && Contents() == old(Contents())
    {
      while bsLive >= 8
        invariant Valid() && Contents() == old(Contents())
        decreases bsLive
      {
        TopByte(bsBuff, live);
        ByteOut(zbits, bsBuff / 0x100_0000, live);
        zbits := zbits + [bsBuff / 0x100_0000];
        bsBuff := bsBuff * 256 % 0x1_0000_0000;
        bsLive := bsLive - 8;
        live := live[8..];
      }
    }

    /** Appends the n low bits of v. */
    method W(n: nat, v: nat)
      requires Valid() && n <= 24 && v < Pow2(n)
      modifies this
      ensures Valid() && Contents() == old(Contents()) + BitsOf(v, n)
    {
      NeedW();
      AppendBits(bsBuff, live, n, v);
      assert BytesToBits(zbits) + (live + BitsOf(v, n)) == BytesToBits(zbits) + live + BitsOf(v, n);
      bsBuff := bsBuff + Shl(v, 32 - bsLive - n);
      bsLive := bsLive + n;
      live := live + BitsOf(v, n);
    }

    /** Sends out what is left, padding the last byte with zeros. */
    method FinishWrite()
      requires Valid()
      modifies this
      ensures Valid() && bsLive == 0
      ensures exists pad: Bits :: |pad| < 8 && BytesToBits(zbits) == old(Contents()) + pad
    {
      ghost var pad: Bits := [];
      assert Contents() == old(Contents()) + pad;
      while bsLive > 0
        invariant Valid() && Contents() == old(Contents()) + pad
        invariant |pad| < 8 && (pad != [] ==> bsLive == 0)
        decreases bsLive
      {
        if bsLive < 8 {
          pad := BitsOf(0, 8 - bsLive);
          Pow2Positive(8 - bsLive);
          AppendBits(bsBuff, live, 8 - bsLive, 0);
          ShlZero(32 - bsLive - (8 - bsLive));
          assert BytesToBits(zbits) + (live + pad) == old(Contents()) + pad;
          live := live + pad;
        }
        TopByte(bsBuff, live);
        ByteOut(zbits, bsBuff / 0x100_0000, live);
        zbits := zbits + [bsBuff / 0x100_0000];
        bsBuff := bsBuff * 256 % 0x1_0000_0000;
        bsLive := if bsLive >= 8 then bsLive - 8 else 0;
        live := live[8..];
      }
      assert BytesToBits(zbits) + live == BytesToBits(zbits);
    }
  }

  lemma Pow2Positive(n: nat)
    ensures 0 < Pow2(n)
  {
  }

  // ---- Input ----

  /** x shifted right by k bits. */
  function Shr(x: nat, k: nat): nat {
    if k == 0 then x else Shr(x / 2, k - 1)
  }

  lemma {:induction false} ShrBound(c: nat, m: nat, k: nat)
    requires c < Pow2(m + k)
    ensures Shr(c, k) < Pow2(m)
    decreases k
  {
    if k > 0 {
      assert Pow2(m + k) == 2 * Pow2(m + k - 1);
      ShrBound(c / 2, m, k - 1);
    }
  }

  /** x masked to its n low bits. */
  function Low(x: nat, n: nat): nat {
    if n == 0 then 0 else 2 * Low(x / 2, n - 1) + x % 2
  }

  lemma {:induction false} LowValue(x: nat, n: nat)
    ensures Low(x, n) == ValueOf(BitsOf(x, n))
  {
    if n > 0 {
      LowValue(x / 2, n - 1);
      assert BitsOf(x, n)[..n - 1] == BitsOf(x / 2, n - 1);
    }
  }

  lemma {:induction false} BitsOfShr(x: nat, m: nat, k: nat)
    ensures BitsOf(x, m + k)[..m] == BitsOf(Shr(x, k), m)
    decreases k
  {
    if k > 0 {
      BitsOfShr(x / 2, m, k - 1);
      assert BitsOf(x, m + k)[..m + k - 1] == BitsOf(x / 2, m + k - 1);
      assert BitsOf(x, m + k)[..m] == BitsOf(x, m + k)[..m + k - 1][..m];
    }
  }

  lemma {:induction false} BitsOfTail(x: nat, m: nat, k: nat)
    ensures BitsOf(x, m + k)[m..] == BitsOf(x, k)
    decreases k
  {
    if k > 0 {
      BitsOfTail(x / 2, m, k - 1);
      assert BitsOf(x, m + k) == BitsOf(x / 2, m + k - 1) + [x % 2 == 1];
      assert BitsOf(x, m + k)[m..] == BitsOf(x / 2, m + k - 1)[m..] + [x % 2 == 1];
    }
  }

  lemma {:induction false} HighBitsIgnored(x: nat, q: nat, m: nat)
    ensures BitsOf(x + Shl(q, m), m) == BitsOf(x, m)
  {
    if m > 0 {
      assert (x + Shl(q, m)) / 2 == x / 2 + Shl(q, m - 1) && (x + Shl(q, m)) % 2 == x % 2;
      HighBitsIgnored(x / 2, q, m - 1);
    }
  }

  lemma Truncated(x: nat, m: nat)
    requires m <= 32
    ensures BitsOf(x % 0x1_0000_0000, m) == BitsOf(x, m)
  {
    var q, r := x / 0x1_0000_0000, x % 0x1_0000_0000;
    ShlBytes(Shl(q, 8));
    ShlBytes(q);
    ShlShl(q, 8, 24);
    ShlShl(q, 32 - m, m);
    assert x == r + Shl(q, 32);
    HighBitsIgnored(r, Shl(q, 32 - m), m);
  }

  lemma BytesToBitsHead(s: seq<Byte>, i: nat)
    requires i < |s|
    ensures BytesToBits(s[i..]) == BitsOf(s[i], 8) + BytesToBits(s[i + 1..])
  {
    assert s[i..] == [s[i]] + s[i + 1..];
    BytesToBitsConcat([s[i]], s[i + 1..]);
    assert [s[i]][..0] == [];
    assert BytesToBits([]) + BitsOf(s[i], 8) == BitsOf(s[i], 8);
  }

  /** Shifting a byte into the bottom of the 32-bit buffer. */
  lemma ByteIn(buff: nat, live: nat, c: Byte)
    requires live <= 24
    ensures BitsOf((buff * 256 + c) % 0x1_0000_0000, live + 8) == BitsOf(buff, live) + BitsOf(c, 8)
  {
    Pow2Bytes();
    ShlByte(buff);
    hide BitsOf, Shl, Pow2;
    BitsOfShifted(buff, c, live, 8);
    Truncated(buff * 256 + c, live + 8);
  }

  /** Taking n bits from the top of the live ones. */
  lemma TopBits(buff: nat, live: nat, n: nat, rest: Bits)
    requires n <= live
    ensures var p := BitsOf(buff, live) + rest;
            Low(Shr(buff, live - n), n) == ValueOf(p[..n]) && p[n..] == BitsOf(buff, live - n) + rest
  {
    var k := live - n;
    hide BitsOf, Low, Shr, ValueOf;
    BitsOfShr(buff, n, k);
    BitsOfTail(buff, n, k);
    LowValue(Shr(buff, k), n);
    var b := BitsOf(buff, live);
    assert (b + rest)[..n] == b[..n];
    assert (b + rest)[n..] == b[n..] + rest;
  }
}

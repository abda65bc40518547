/** Unpacking, unchecked and checked, against the function that says what a stream unpacks to. */
module BlzDecoder {
  import opened Permutations
  import opened HeaderBits
  import opened BitStream
  import opened BlzFormat
  import opened BlzTokens

  // ---- Gamma codes by lookup ----

  /** Value and number of bits of the code at the front of eight bits; 0 bits if the code goes on. */
  function GammaDecode(i: nat): (nat, nat) {
    if i < 0x40 then (2, 2)
    else if i < 0x50 then (4, 4)
    else if i < 0x54 then (8, 6)
    else if i < 0x58 then Four(16, i - 0x54)
    else if i < 0x5C then (9, 6)
    else if i < 0x60 then Four(18, i - 0x5C)
    else if i < 0x70 then (5, 4)
    else if i < 0x74 then (10, 6)
    else if i < 0x78 then Four(20, i - 0x74)
    else if i < 0x7C then (11, 6)
    else if i < 0x80 then Four(22, i - 0x7C)
    else if i < 0xC0 then (3, 2)
    else if i < 0xD0 then (6, 4)
    else if i < 0xD4 then (12, 6)
    else if i < 0xD8 then Four(24, i - 0xD4)
    else if i < 0xDC then (13, 6)
    else if i < 0xE0 then Four(26, i - 0xDC)
    else if i < 0xF0 then (7, 4)
    else if i < 0xF4 then (14, 6)
    else if i < 0xF8 then Four(28, i - 0xF4)
    else if i < 0xFC then (15, 6)
    else Four(30, i - 0xFC)
  }

  /** Four entries of codes of four pairs: the last pair ends the code or not. */
  function Four(v: nat, k: nat): (nat, nat) {
    (v + k / 2, if k % 2 == 0 then 8 else 0)
  }

  /** The pairs of bits read one by one. */
  function Walk(r: nat, bits: Bits, used: nat): (nat, nat)
    decreases |bits|
  {
    if |bits| < 2 then (r, 0)
    else
      var v := 2 * r + if bits[0] then 1 else 0;
      if bits[1] then Walk(v, bits[2..], used + 2) else (v, used + 2)
  }

  function Int(b: bool): nat {
    if b then 1 else 0
  }

  lemma NextBitOf(v: nat, n: nat)
    requires n > 0
    ensures BitsOf(v, n) == BitsOf(v / 2, n - 1) + [v % 2 == 1]
    ensures v == 2 * (v / 2) + Int(v % 2 == 1)
  {
  }

  /** A byte and its bits. */
  lemma EightBits(i: nat) returns (b: Bits)
    requires i < 256
    ensures |b| == 8 && b == BitsOf(i, 8)
    ensures i == 128 * Int(b[0]) + 64 * Int(b[1]) + 32 * Int(b[2]) + 16 * Int(b[3])
                 + 8 * Int(b[4]) + 4 * Int(b[5]) + 2 * Int(b[6]) + Int(b[7])
  {
    hide BitsOf, Int;
    var i4 := i / 16;
    var low := FourBits(i, 4);
    var none := i4 / 16;
    var high := FourBits(i4, 0);
    NoBitsOf(none);
    assert none == 0 && BitsOf(none, 0) + high == high;
    b := high + low;
  }

  lemma NoBitsOf(v: nat)
    ensures BitsOf(v, 0) == []
  {
  }

  /** The four lowest bits. */
  lemma FourBits(v: nat, n: nat) returns (b: Bits)
    ensures |b| == 4 && BitsOf(v, n + 4) == BitsOf(v / 16, n) + b
    ensures v == 16 * (v / 16) + 8 * Int(b[0]) + 4 * Int(b[1]) + 2 * Int(b[2]) + Int(b[3])
  {
    var v1 := v / 2;
    var v2 := v1 / 2;
    var v3 := v2 / 2;
    NextBitOf(v, n + 4);
    NextBitOf(v1, n + 3);
    NextBitOf(v2, n + 2);
    NextBitOf(v3, n + 1);
    hide BitsOf, Int;
    assert v / 16 == v3 / 2;
    b := [v3 % 2 == 1, v2 % 2 == 1, v1 % 2 == 1, v % 2 == 1];
    var front := BitsOf(v / 16, n);
    assert front + b == front + [b[0]] + [b[1]] + [b[2]] + [b[3]];
  }

  lemma WalkPair(r: nat, a: bool, b: bool, more: Bits, used: nat)
    ensures Walk(r, [a, b] + more, used)
            == if b then Walk(2 * r + Int(a), more, used + 2) else (2 * r + Int(a), used + 2)
  {
    assert ([a, b] + more)[2..] == more;
  }

  /** The table agrees with reading the pairs one by one. */
  lemma DecodeIsWalk(i: nat)
    requires i < 256
    ensures GammaDecode(i) == Walk(1, BitsOf(i, 8), 0)
  {
    var b := EightBits(i);
    hide BitsOf, Walk, GammaDecode, Int;
    DecodeBits(b[0], b[1], b[2], b[3], b[4], b[5], b[6], b[7]);
    WalkEight(b);
  }

  lemma WalkEight(b: Bits)
    requires |b| == 8
    ensures var v := 2 + Int(b[0]);
            var w := 2 * v + Int(b[2]);
            var u := 2 * w + Int(b[4]);
            Walk(1, b, 0) == if !b[1] then (v, 2) else if !b[3] then (w, 4) else if !b[5] then (u, 6)
                             else (2 * u + Int(b[6]), if b[7] then 0 else 8)
  {
    hide Walk, Int;
    var more := [b[2], b[3], b[4], b[5], b[6], b[7]];
    assert b == [b[0], b[1]] + more;
    WalkPair(1, b[0], b[1], more, 0);
    if b[1] {
      WalkRest(2 + Int(b[0]), b[2], b[3], b[4], b[5], b[6], b[7]);
    }
  }

  /** The three pairs after the first. */
  lemma WalkRest(v: nat, c: bool, d: bool, e: bool, f: bool, g: bool, h: bool)
    ensures var w := 2 * v + Int(c);
            var u := 2 * w + Int(e);
            Walk(v, [c, d, e, f, g, h], 2)
            == if !d then (w, 4) else if !f then (u, 6) else (2 * u + Int(g), if h then 0 else 8)
  {
    hide Walk, Int;
    assert [c, d, e, f, g, h] == [c, d] + [e, f, g, h] && [e, f, g, h] == [e, f] + [g, h] && [g, h] == [g, h] + [];
    var w := 2 * v + Int(c);
    WalkPair(v, c, d, [e, f, g, h], 2);
    WalkPair(w, e, f, [g, h], 4);
    WalkPair(2 * w + Int(e), g, h, [], 6);
    NothingLeft(2 * (2 * w + Int(e)) + Int(g));
  }

  /** The table, bit by bit. */
  lemma DecodeBits(a: bool, b: bool, c: bool, d: bool, e: bool, f: bool, g: bool, h: bool)
    ensures var i := 128 * Int(a) + 64 * Int(b) + 32 * Int(c) + 16 * Int(d) + 8 * Int(e) + 4 * Int(f) + 2 * Int(g) + Int(h);
            var v := 2 + Int(a);
            var w := 2 * v + Int(c);
            var u := 2 * w + Int(e);
            GammaDecode(i) == if !b then (v, 2) else if !d then (w, 4) else if !f then (u, 6) else (2 * u + Int(g), if h then 0 else 8)
  {
  }

  lemma NothingLeft(r: nat)
    ensures Walk(r, [], 8) == (r, 0)
  {
  }

  function Headroom(n: nat): nat {
    if n == 8 then 0x10_0000 else if n == 6 then 0x20_0000 else if n == 4 then 0x40_0000 else if n == 2 then 0x80_0000 else 0x100_0000
  }

  /** One pair: a bit of the value, and whether there are more. */
  lemma PairReads(s: seq<Byte>, p: nat, t: Bits, r: nat)
    requires |t| >= 2 && r < 0x8000_0000
    ensures var v := 2 * r + Int(t[0]);
            ReadGamma(s, At(p, t), r) == if t[1] then ReadGamma(s, At(p, t[2..]), v) else Value(v, At(p, t[2..]))
  {
    assert t[1..][1..] == t[2..];
  }

  lemma HeadroomStep(r: nat, n: nat, b: bool)
    requires n % 2 == 0 && 0 < n <= 8 && r < Headroom(n)
    ensures r < 0x8000_0000 && 2 * r + Int(b) < Headroom(n - 2)
  {
  }

  lemma BehindPair(t: Bits, n: nat, k: nat)
    requires 2 <= k <= |t| && 2 <= n <= |t|
    ensures t[2..][k - 2..] == t[k..] && t[..n] == [t[0], t[1]] + t[2..][..n - 2]
  {
  }

  /** What reading comes to, the first bits having been read in pairs. */
  ghost function AfterWalk(s: seq<Byte>, p: nat, t: Bits, n: nat, used: nat, w: (nat, nat)): Read<nat>
    requires n <= |t| && (w.1 > 0 ==> used < w.1 <= used + n)
  {
    if w.1 > 0 then Value(w.0, At(p, t[w.1 - used..])) else ReadGamma(s, At(p, t[n..]), w.0)
  }

  ghost predicate WalkAgrees(s: seq<Byte>, p: nat, t: Bits, r: nat, n: nat, used: nat)
    requires n <= |t|
  {
    var w := Walk(r, t[..n], used);
    (w.1 > 0 ==> used < w.1 <= used + n) && ReadGamma(s, At(p, t), r) == AfterWalk(s, p, t, n, used, w)
  }

  lemma WalkNone(s: seq<Byte>, p: nat, t: Bits, r: nat, used: nat)
    ensures WalkAgrees(s, p, t, r, 0, used)
  {
    hide ReadGamma;
    assert t[0..] == t;
  }

  /** The next pair ends the number. */
  lemma WalkLast(s: seq<Byte>, p: nat, t: Bits, r: nat, n: nat, used: nat)
    requires 2 <= n <= |t| && r < 0x8000_0000 && !t[1]
    ensures WalkAgrees(s, p, t, r, n, used)
  {
    hide ReadGamma, Walk;
    BehindPair(t, n, n);
    WalkPair(r, t[0], t[1], t[2..][..n - 2], used);
    PairReads(s, p, t, r);
  }

  /** It does not, and the pairs behind it are read as if one by one. */
  lemma WalkMore(s: seq<Byte>, p: nat, t: Bits, r: nat, n: nat, used: nat)
    requires 2 <= n <= |t| && r < 0x8000_0000 && t[1] && WalkAgrees(s, p, t[2..], 2 * r + Int(t[0]), n - 2, used + 2)
    ensures WalkAgrees(s, p, t, r, n, used)
  {
    hide ReadGamma, Walk, Int;
    BehindPair(t, n, n);
    WalkPair(r, t[0], t[1], t[2..][..n - 2], used);
    PairReads(s, p, t, r);
    var w := Walk(2 * r + Int(t[0]), t[2..][..n - 2], used + 2);
    if w.1 > 0 {
      BehindPair(t, n, w.1 - used);
    }
  }

  /** Pairs read at once are read as if one by one. */
  lemma {:induction false} WalkReads(s: seq<Byte>, p: nat, t: Bits, r: nat, n: nat, used: nat)
    requires n % 2 == 0 && n <= 8 && n <= |t| && r < Headroom(n)
    ensures WalkAgrees(s, p, t, r, n, used)
    decreases n
  {
    hide WalkAgrees, Headroom, Int;
    if n == 0 {
      WalkNone(s, p, t, r, used);
    } else {
      HeadroomStep(r, n, t[0]);
      if t[1] {
        WalkReads(s, p, t[2..], 2 * r + Int(t[0]), n - 2, used + 2);
        WalkMore(s, p, t, r, n, used);
      } else {
        WalkLast(s, p, t, r, n, used);
      }
    }
  }

  // ---- The state of a reader ----

  class DepackState {
    const src: seq<Byte>
    const dst: array<Byte>
    var pos: nat
    var tag: nat
    var bitsLeft: nat

    ghost predicate Valid()
      reads this
    {
      bitsLeft <= TAG_BITS && pos <= |src|
    }

    /** Where the reader stands. */
    ghost function Here(): Place
      requires Valid()
      reads this
    {
      At(pos, BitsOf(tag, TAG_BITS)[..bitsLeft])
    }

    /** One bit, a zero, is left in the tag to start with. */
    constructor (bytes: seq<Byte>, buffer: array<Byte>, firstTag: nat)
      requires firstTag == 0 || firstTag == 0x4000
      ensures Valid() && Here() == ENTRY && src == bytes && dst == buffer
    {
      src, dst, pos, tag, bitsLeft := bytes, buffer, 0, firstTag, 1;
      new;
      FirstBitZero(firstTag);
    }

    /** Takes a bit off the tag, which has one. */
    method TakeBit() returns (bit: bool)
      requires Valid() && bitsLeft > 0
      modifies this`tag, this`bitsLeft
      ensures Valid() && NextBit(src, old(Here())) == Value(bit, Here())
    {
      TopBit(tag, bitsLeft);
      bit := tag / 0x8000 % 2 == 1;
      tag := tag * 2;
      bitsLeft := bitsLeft - 1;
    }

    /** Loads the tag at the source position. */
    method LoadTag()
      requires Valid() && bitsLeft == 0 && pos + 2 <= |src|
      modifies this`tag, this`bitsLeft, this`pos
      ensures Valid() && bitsLeft == TAG_BITS && NextBit(src, Here()) == NextBit(src, old(Here()))
    {
      tag := (src[pos] as nat) + 256 * (src[pos + 1] as nat);
      pos := pos + 2;
      bitsLeft := TAG_BITS;
      assert BitsOf(tag, TAG_BITS)[..TAG_BITS] == BitsOf(tag, TAG_BITS);
    }

    method GetBit() returns (bit: bool)
      requires Valid() && NextBit(src, Here()).Value?
      modifies this`tag, this`bitsLeft, this`pos
      ensures Valid() && NextBit(src, old(Here())) == Value(bit, Here())
    {
      if bitsLeft == 0 {
        LoadTag();
      }
      bit := TakeBit();
    }

    /** The checked form: false when the source has run out. */
    method GetBitSafe() returns (ok: bool, bit: bool)
      requires Valid()
      modifies this`tag, this`bitsLeft, this`pos
      ensures Valid() && ok == NextBit(src, old(Here())).Value?
      ensures ok ==> NextBit(src, old(Here())) == Value(bit, Here())
    {
      if bitsLeft == 0 {
        if |src| - pos < 2 { return false, false; }
        LoadTag();
      }
      ok := true;
      bit := TakeBit();
    }

    /** Up to eight bits of a gamma code by lookup; whether that was all of it. */
    method LookupGamma() returns (v: nat, done: bool)
      requires Valid() && bitsLeft >= 8
      modifies this`tag, this`bitsLeft
      ensures Valid() && v >= 1 && v < 0x100_0000
      ensures ReadGamma(src, old(Here()), 1) == if done then Value(v, Here()) else ReadGamma(src, Here(), v)
    {
      var top8 := tag / 256 % 256;
      TopEight(tag, bitsLeft);
      DecodeIsWalk(top8);
      WalkReads(src, pos, Here().bits, 1, 8, 0);
      var shift := GammaDecode(top8).1;
      v := GammaDecode(top8).0;
      done := shift != 0;
      if !done {
        shift := 8;
      }
      ShiftTag(tag, bitsLeft, shift);
      tag := Shl(tag, shift);
      bitsLeft := bitsLeft - shift;
    }

    method GetGamma() returns (v: nat)
      requires Valid() && ReadGamma(src, Here(), 1).Value?
      modifies this`tag, this`bitsLeft, this`pos
      ensures Valid() && ReadGamma(src, old(Here()), 1) == Value(v, Here())
    {
      v := 1;
      if bitsLeft >= 8 {
        var done;
        v, done := LookupGamma();
        if done { return; }
      }
      var more := true;
      while more
        invariant Valid() && (more ==> ReadGamma(src, Here(), v) == old(ReadGamma(src, Here(), 1)))
        invariant !more ==> old(ReadGamma(src, Here(), 1)) == Value(v, Here())
        decreases more, Remaining(src, Here())
      {
        GammaStep(src, Here(), v);
        var bit := GetBit();
        v := 2 * v + if bit then 1 else 0;
        BitsRunOut(src, Here());
        more := GetBit();
      }
    }

    method GetGammaSafe() returns (ok: bool, v: nat)
      requires Valid()
      modifies this`tag, this`bitsLeft, this`pos
      ensures Valid() && ok == ReadGamma(src, old(Here()), 1).Value?
      ensures ok ==> ReadGamma(src, old(Here()), 1) == Value(v, Here())
    {
      v := 1;
      if bitsLeft >= 8 {
        var done;
        v, done := LookupGamma();
        if done { return true, v; }
      }
      var more := true;
      while more
        invariant Valid() && (more ==> ReadGamma(src, Here(), v) == old(ReadGamma(src, Here(), 1)))
        invariant !more ==> old(ReadGamma(src, Here(), 1)) == Value(v, Here())
        decreases more, Remaining(src, Here())
      {
        GammaStep(src, Here(), v);
        var bit;
        ok, bit := GetBitSafe();
        if !ok { return; }
        if v >= 0x8000_0000 { return false, v; }
        v := 2 * v + if bit then 1 else 0;
        BitsRunOut(src, Here());
        ok, more := GetBitSafe();
        if !ok { return; }
      }
      ok := true;
    }

    /** Copies len characters from off back, one by one. */
    method CopyBack(dstSize: nat, off: nat, len: nat)
      requires 0 < off <= dstSize && dstSize + len <= dst.Length
      modifies dst
      ensures dst[..dstSize + len] == CopyMatch(old(dst[..dstSize]), off, len)
    {
      var p: nat, d: nat, i: nat := dstSize - off, dstSize, len;
      ghost var want := CopyMatch(dst[..dstSize], off, len);
      while i > 0
        invariant i <= len && d == dstSize + len - i && p == d - off
        invariant CopyMatch(dst[..d], off, i) == want
      {
        ghost var was := dst[..d];
        dst[d] := dst[p];
        d := d + 1;
        p := p + 1;
        i := i - 1;
        assert dst[..d] == was + [was[|was| - off]];
      }
    }

    /** Unpacks one token that is known to be there. */
    method StepFast(dstSize: nat, ghost size: nat) returns (dstSize': nat)
      requires Valid() && dstSize < size <= dst.Length && ReadStep(src, Here(), dstSize, size - dstSize).Value?
      modifies this`tag, this`bitsLeft, this`pos, dst
      ensures Valid() && dstSize < dstSize' <= size
      ensures var r := old(ReadStep(src, Here(), dstSize, size - dstSize));
              r.at == Here() && dst[..dstSize'] == Grown(old(dst[..dstSize]), r.v)
    {
      hide ReadGamma, NextBit;
      var bit := GetBit();
      if bit {
        var len := GetGamma();
        var off := GetGamma();
        len, off := len + 2, off - 2;
        off := off * 256 + (src[pos] as nat) + 1;
        pos := pos + 1;
        CopyBack(dstSize, off, len);
        dstSize' := dstSize + len;
      } else {
        dst[dstSize] := src[pos];
        pos := pos + 1;
        dstSize' := dstSize + 1;
      }
    }

    /** Unpacks one token, or reports that there is none or that it does not fit. */
    method StepSafe(dstSize: nat, size: nat) returns (ok: bool, dstSize': nat)
      requires Valid() && dstSize < size == dst.Length
      modifies this`tag, this`bitsLeft, this`pos, dst
      ensures Valid() && ok == old(ReadStep(src, Here(), dstSize, size - dstSize)).Value?
      ensures ok ==> dstSize < dstSize' <= size
      ensures ok ==> var r := old(ReadStep(src, Here(), dstSize, size - dstSize));
                r.at == Here() && dst[..dstSize'] == Grown(old(dst[..dstSize]), r.v)
    {
      hide ReadGamma, NextBit, CopyMatch;
      var bit;
      dstSize' := dstSize;
      ok, bit := GetBitSafe();
      if !ok { return; }
      if bit {
        var len, off;
        ok, len := GetGammaSafe();
        if !ok { return; }
        ghost var gammaAt := Here();
        ok, off := GetGammaSafe();
        if !ok { return; }
        GammaAtLeast(src, gammaAt, 1);
        if off - 2 >= OFFSET_LIMIT { return false, dstSize; }
        if |src| - pos == 0 { return false, dstSize; }
        len, off := len + 2, off - 2;
        off := off * 256 + (src[pos] as nat) + 1;
        pos := pos + 1;
        if off > dstSize { return false, dstSize; }
        if len > size - dstSize { return false, dstSize; }
        CopyBack(dstSize, off, len);
        dstSize' := dstSize + len;
      } else {
        if |src| - pos == 0 { return false, dstSize; }
        dst[dstSize] := src[pos];
        pos := pos + 1;
        dstSize' := dstSize + 1;
      }
    }
  }

  /** Unpacks a stream that unpacks to `size` bytes. */
  method DepackFast(src: seq<Byte>, dst: array<Byte>, size: nat) returns (n: nat)
    requires dst.Length >= size && Depack(src, ENTRY, [], size).Some?
    modifies dst
    ensures n == size && Depack(src, ENTRY, [], size) == Some(dst[..size])
  {
    var bs := new DepackState(src, dst, 0x4000);
    hide ReadStep, Grown;
    n := 0;
    assert dst[..0] == [];
    while n < size
      invariant bs.Valid() && bs.src == src && bs.dst == dst && fresh(bs) && n <= size
      invariant Depack(src, bs.Here(), dst[..n], size) == Depack(src, ENTRY, [], size)
    {
      n := bs.StepFast(n, size);
    }
  }

  /**
   * Unpacks any bytes at all: it succeeds exactly if they unpack to `size` bytes, and then
   * the buffer holds these. Nothing is read beyond the source or written beyond the buffer.
   */
  method DepackSafe(src: seq<Byte>, dst: array<Byte>, size: nat) returns (ok: bool, n: nat)
    requires dst.Length == size
    modifies dst
    ensures ok == Depack(src, ENTRY, [], size).Some?
    ensures ok ==> n == size && Depack(src, ENTRY, [], size) == Some(dst[..])
  {
    var bs := new DepackState(src, dst, 0);
    hide ReadStep, Grown;
    n := 0;
    ok := true;
    assert dst[..0] == [];
    while n < size
      invariant bs.Valid() && bs.src == src && bs.dst == dst && fresh(bs) && n <= size
      invariant Depack(src, bs.Here(), dst[..n], size) == Depack(src, ENTRY, [], size)
    {
      ok, n := bs.StepSafe(n, size);
      if !ok { return; }
    }
    ok := true;
    assert dst[..size] == dst[..];
  }

  lemma {:induction false} GammaAtLeast(s: seq<Byte>, at: Place, r: nat)
    requires r >= 1
    ensures ReadGamma(s, at, r).Value? ==> ReadGamma(s, at, r).v >= 2
    decreases Remaining(s, at)
  {
    GammaStep(s, at, r);
    if NextBit(s, at).Value? && r < 0x8000_0000 {
      var at1 := NextBit(s, at).at;
      BitsRunOut(s, at1);
      if NextBit(s, at1).Value? && NextBit(s, at1).v {
        GammaAtLeast(s, NextBit(s, at1).at, 2 * r + if NextBit(s, at).v then 1 else 0);
      }
    }
  }

  lemma FirstBitZero(firstTag: nat)
    requires firstTag == 0 || firstTag == 0x4000
    ensures BitsOf(firstTag, TAG_BITS)[..1] == [false]
  {
    TopBit(firstTag, 1);
  }

  /** The highest bit of the tag, and the others moved up. */
  lemma TopBit(tag: nat, n: nat)
    requires 0 < n <= TAG_BITS
    ensures var t := BitsOf(tag, TAG_BITS)[..n];
            t[0] == (tag / 0x8000 % 2 == 1) && BitsOf(tag * 2, TAG_BITS)[..n - 1] == t[1..]
  {
    var t := BitsOf(tag, TAG_BITS);
    BitsOfShr(tag, 1, 15);
    BitsOfTail(tag, 1, 15);
    ShrIs(tag);
    assert BitsOf(Shr(tag, 15), 1) == BitsOf(Shr(tag, 15) / 2, 0) + [Shr(tag, 15) % 2 == 1];
    assert t[..1][0] == t[0];
    assert BitsOf(tag * 2, TAG_BITS) == BitsOf(tag, 15) + [false];
    assert (t[1..] + [false])[..n - 1] == t[..n][1..];
  }

  lemma ShrIs(tag: nat)
    ensures Shr(tag, 15) == tag / 0x8000 && Shr(tag, 8) == tag / 256
  {
    ShrByte(tag);
    ShrShr(tag, 8, 7);
    var y := tag / 256;
    assert Shr(y, 7) == Shr(y / 2, 6);
    assert Shr(y / 2, 6) == Shr(y / 4, 5);
    assert Shr(y / 4, 5) == Shr(y / 8, 4);
    assert Shr(y / 8, 4) == Shr(y / 16, 3);
    assert Shr(y / 16, 3) == Shr(y / 32, 2);
    assert Shr(y / 32, 2) == Shr(y / 64, 1);
  }

  lemma ShrByte(x: nat)
    ensures Shr(x, 8) == x / 256
  {
    assert Shr(x, 8) == Shr(x / 2, 7);
    assert Shr(x / 2, 7) == Shr(x / 4, 6);
    assert Shr(x / 4, 6) == Shr(x / 8, 5);
    assert Shr(x / 8, 5) == Shr(x / 16, 4);
    assert Shr(x / 16, 4) == Shr(x / 32, 3);
    assert Shr(x / 32, 3) == Shr(x / 64, 2);
    assert Shr(x / 64, 2) == Shr(x / 128, 1);
  }

  lemma {:induction false} ShrShr(x: nat, a: nat, b: nat)
    ensures Shr(x, a + b) == Shr(Shr(x, a), b)
    decreases a
  {
    if a > 0 {
      ShrShr(x / 2, a - 1, b);
    }
  }

  lemma TopEight(tag: nat, n: nat)
    requires 8 <= n <= TAG_BITS
    ensures BitsOf(tag / 256 % 256, 8) == BitsOf(tag, TAG_BITS)[..n][..8]
  {
    BitsOfShr(tag, 8, 8);
    ShrByte(tag);
    var y := tag / 256;
    Low8(y);
    assert BitsOf(tag, TAG_BITS)[..n][..8] == BitsOf(tag, TAG_BITS)[..8];
  }

  lemma Low8(y: nat)
    ensures BitsOf(y % 256, 8) == BitsOf(y, 8)
  {
    ShlByte(y / 256);
    HighBitsIgnored(y % 256, y / 256, 8);
  }

  lemma ShiftTag(tag: nat, n: nat, k: nat)
    requires k <= n <= TAG_BITS
    ensures BitsOf(Shl(tag, k), TAG_BITS)[..n - k] == BitsOf(tag, TAG_BITS)[..n][k..]
  {
    hide BitsOf, Pow2;
    Pow2Positive(k);
    BitsOfShifted(tag, 0, TAG_BITS - k, k);
    BitsOfTail(tag, k, TAG_BITS - k);
  }

  /** A bit and then a bit saying whether more follow. */
  lemma GammaStep(s: seq<Byte>, at: Place, r: nat)
    ensures NextBit(s, at).Fail? ==> ReadGamma(s, at, r) == Fail
    ensures r >= 0x8000_0000 ==> ReadGamma(s, at, r) == Fail
    ensures NextBit(s, at).Value? && r < 0x8000_0000 ==>
              var v := 2 * r + if NextBit(s, at).v then 1 else 0;
              var at1 := NextBit(s, at).at;
              && Remaining(s, at1) < Remaining(s, at)
              && ReadGamma(s, at, r)
                 == match NextBit(s, at1)
                    case Fail => Fail
                    case Value(more, at2) => if more then ReadGamma(s, at2, v) else Value(v, at2)
  {
    BitsRunOut(s, at);
  }
}

/** The codes of crush's literals and matches, how they are read, and what a stream of them unpacks to. */
module CrushFormat {
  import opened Permutations
  import opened HeaderBits
  import opened BitStream
  import opened CrushBits
  import BlzTokens

  const W_BITS: nat := 21
  const W_SIZE: nat := 0x20_0000
  const FIRST_LOG: nat := 5
  const MIN_MATCH: nat := 3
  /** How many lengths there are. */
  const LENGTHS: nat := 564
  const MAX_MATCH: nat := 566
  const TOO_FAR: nat := 0x1_0000

  // ---- Lengths, in six tiers ----

  function TierBits(t: nat): nat {
    if t < 3 then 2 else if t == 3 then 3 else if t == 4 then 5 else 9
  }

  function TierBase(t: nat): nat {
    if t == 0 then 0 else TierBase(t - 1) + Size(TierBits(t - 1))
  }

  /** How many values n bits have. */
  function Size(n: nat): (s: nat) {
    Pow2(n)
  }

  function Tier(l: nat): (t: nat)
    ensures t <= 5
  {
    if l < 4 then 0 else if l < 8 then 1 else if l < 12 then 2 else if l < 20 then 3 else if l < 52 then 4 else 5
  }

  /** As many zeros as the tier's number, ended by a one unless it is the last tier. */
  function Prefix(t: nat): (b: Bits)
    requires t <= 5
    ensures |b| == if t < 5 then t + 1 else 5
  {
    LowBits(if t < 5 then Pow2(t) else 0, if t < 5 then t + 1 else 5)
  }

  lemma TierBases()
    ensures TierBase(0) == 0 && TierBase(1) == 4 && TierBase(2) == 8 && TierBase(3) == 12 && TierBase(4) == 20 && TierBase(5) == 52
    ensures Pow2(2) == 4 && Pow2(3) == 8 && Pow2(5) == 32 && Pow2(9) == 512
  {
    assert Pow2(4) == 16;
    assert Pow2(6) == 64;
    assert TierBase(1) == 4;
    assert TierBase(2) == 8;
    assert TierBase(3) == 12;
    assert TierBase(4) == 20;
  }

  lemma TierHolds(l: nat)
    requires l < LENGTHS
    ensures TierBase(Tier(l)) <= l < TierBase(Tier(l)) + Pow2(TierBits(Tier(l)))
  {
    TierBases();
  }

  function LengthBits(l: nat): (b: Bits)
    requires l < LENGTHS
  {
    TierHolds(l);
    Prefix(Tier(l)) + LowBits(l - TierBase(Tier(l)), TierBits(Tier(l)))
  }

  // ---- Offsets, in slots ----

  /** The lowest of the logarithms from the one given that is high enough for o. */
  function LogFrom(o: nat, log: nat): (r: nat)
    requires log < W_BITS && o < Pow2(W_BITS)
    ensures log <= r < W_BITS && o < 2 * Pow2(r) && (r > log ==> Pow2(r) <= o)
    decreases W_BITS - log
  {
    if o >= 2 * Pow2(log) then
      assert Pow2(log + 1) == 2 * Pow2(log);
      LogFrom(o, log + 1)
    else log
  }

  function OffsetBits(o: nat): (b: Bits)
    requires o < Pow2(W_BITS)
  {
    var log := LogFrom(o, FIRST_LOG);
    LowBits(log - FIRST_LOG, 4) + if log > FIRST_LOG then LowBits(o - Pow2(log), log) else LowBits(o, 6)
  }

  // ---- Reading ----

  datatype Read<T> = Got(v: T, rest: Bits) | Short

  function Take(bits: Bits, n: nat): Read<nat> {
    if |bits| < n then Short else Got(LowestFirst(bits[..n]), bits[n..])
  }

  lemma TakeBack(v: nat, n: nat, rest: Bits)
    requires v < Pow2(n)
    ensures Take(LowBits(v, n) + rest, n) == Got(v, rest)
  {
    ValueOfLowBits(v, n);
    assert (LowBits(v, n) + rest)[..n] == LowBits(v, n);
  }

  /** The tier, t zeros of its prefix having been read. */
  function ReadTier(bits: Bits, t: nat): (r: Read<nat>)
    requires t <= 5
    ensures r.Got? ==> r.v <= 5
    decreases 5 - t
  {
    if t == 5 then Got(5, bits)
    else
      match Take(bits, 1)
      case Short => Short
      case Got(b, rest) => if b != 0 then Got(t, rest) else ReadTier(rest, t + 1)
  }

  function ReadLength(bits: Bits): Read<nat> {
    ReadLengthFrom(bits, 0)
  }

  /** A length whose tier is known to be t or a later one. */
  function ReadLengthFrom(bits: Bits, t: nat): Read<nat>
    requires t <= 5
  {
    match ReadTier(bits, t)
    case Short => Short
    case Got(t, rest) =>
      match Take(rest, TierBits(t))
      case Short => Short
      case Got(l, rest') => Got(l + TierBase(t), rest')
  }

  function ReadOffset(bits: Bits): Read<nat> {
    match Take(bits, 4)
    case Short => Short
    case Got(slot, rest) =>
      if slot > 0 then
        match Take(rest, slot + FIRST_LOG)
        case Short => Short
        case Got(o, rest') => Got(o + Pow2(slot + FIRST_LOG), rest')
      else Take(rest, 6)
  }

  lemma {:induction false} PrefixReads(t: nat, k: nat, rest: Bits)
    requires k <= t <= 5
    ensures |LowBits(if t < 5 then Pow2(t - k) else 0, (if t < 5 then t + 1 else 5) - k)| == (if t < 5 then t + 1 else 5) - k
    ensures ReadTier(LowBits(if t < 5 then Pow2(t - k) else 0, (if t < 5 then t + 1 else 5) - k) + rest, k) == Got(t, rest)
    decreases t - k
  {
    var v := if t < 5 then Pow2(t - k) else 0;
    var n := (if t < 5 then t + 1 else 5) - k;
    if k == t {
      if t < 5 {
        TakeBack(1, 1, rest);
      } else {
        assert LowBits(0, 0) + rest == rest;
      }
    } else {
      var more := LowBits(v / 2, n - 1);
      assert v % 2 == 0;
      assert LowBits(v, n) + rest == [false] + (more + rest);
      assert LowestFirst([false]) == 0;
      assert ([false] + (more + rest))[..1] == [false];
      PrefixReads(t, k + 1, rest);
    }
  }

  lemma LengthReads(l: nat, rest: Bits)
    requires l < LENGTHS
    ensures ReadLength(LengthBits(l) + rest) == Got(l, rest)
  {
    hide ReadTier, Take, LowBits, TierBase, TierBits, Tier;
    var t := Tier(l);
    TierHolds(l);
    var more := LowBits(l - TierBase(t), TierBits(t));
    assert LengthBits(l) + rest == Prefix(t) + (more + rest);
    PrefixReads(t, 0, more + rest);
    TakeBack(l - TierBase(t), TierBits(t), rest);
  }

  lemma OffsetReads(o: nat, rest: Bits)
    requires o < Pow2(W_BITS)
    ensures ReadOffset(OffsetBits(o) + rest) == Got(o, rest)
  {
    hide Take, LowBits;
    var log := LogFrom(o, FIRST_LOG);
    SmallPowers();
    if log > FIRST_LOG {
      assert OffsetBits(o) + rest == LowBits(log - FIRST_LOG, 4) + (LowBits(o - Pow2(log), log) + rest);
      TakeBack(log - FIRST_LOG, 4, LowBits(o - Pow2(log), log) + rest);
      TakeBack(o - Pow2(log), log, rest);
    } else {
      assert OffsetBits(o) + rest == LowBits(0, 4) + (LowBits(o, 6) + rest);
      TakeBack(0, 4, LowBits(o, 6) + rest);
      TakeBack(o, 6, rest);
    }
  }

  lemma SmallPowers()
    ensures Pow2(4) == 16 && Pow2(5) == 32 && Pow2(6) == 64 && Pow2(8) == 256 && Pow2(W_BITS) == W_SIZE && Pow2(16) == TOO_FAR
  {
    Pow2Bytes();
    EightMore(8);
    assert Pow2(6) == 64;
    assert Pow2(20) == 16 * Pow2(16);
  }

  // ---- Tokens ----

  datatype Token = Literal(c: Byte) | Match(offset: nat, len: nat)

  /** What the format can say. */
  predicate Sayable(t: Token) {
    t.Match? ==> 1 <= t.offset <= W_SIZE && MIN_MATCH <= t.len <= MAX_MATCH
  }

  function TokenBits(t: Token): Bits
    requires Sayable(t)
  {
    SmallPowers();
    match t
    case Literal(c) => LowBits(2 * c, 9)
    case Match(offset, len) => LowBits(1, 1) + LengthBits(len - MIN_MATCH) + OffsetBits(offset - 1)
  }

  function ReadToken(bits: Bits): (r: Read<Token>)
    ensures r.Got? && r.v.Match? ==> r.v.offset >= 1 && r.v.len >= MIN_MATCH
  {
    match Take(bits, 1)
    case Short => Short
    case Got(m, rest) =>
      if m == 0 then
        match Take(rest, 8)
        case Short => Short
        case Got(c, rest') =>
          SmallPowers();
          LowBitsOfValue(rest[..8]);
          Got(Literal(c), rest')
      else
        match ReadLength(rest)
        case Short => Short
        case Got(l, rest') =>
          match ReadOffset(rest')
          case Short => Short
          case Got(o, rest'') => Got(Match(o + 1, l + MIN_MATCH), rest'')
  }

  lemma TokenReads(t: Token, rest: Bits)
    requires Sayable(t)
    ensures ReadToken(TokenBits(t) + rest) == Got(t, rest)
  {
    hide ReadToken, TokenBits;
    match t {
      case Literal(c) => LiteralReads(c, rest);
      case Match(offset, len) => MatchReads(offset, len, rest);
    }
  }

  lemma LiteralReads(c: Byte, rest: Bits)
    ensures ReadToken(TokenBits(Literal(c)) + rest) == Got(Literal(c), rest)
  {
    hide ReadLength, ReadOffset, LengthBits, OffsetBits, Take;
    SmallPowers();
    var more := LowBits(c, 8) + rest;
    assert LowBits(2 * c, 9) == [false] + LowBits(c, 8) && LowBits(0, 1) == [false];
    assert TokenBits(Literal(c)) + rest == LowBits(0, 1) + more;
    TakeBack(0, 1, more);
    TakeBack(c, 8, rest);
  }

  lemma MatchReads(offset: nat, len: nat, rest: Bits)
    requires Sayable(Match(offset, len))
    ensures ReadToken(TokenBits(Match(offset, len)) + rest) == Got(Match(offset, len), rest)
  {
    hide ReadLength, ReadOffset, LengthBits, OffsetBits, Take;
    SmallPowers();
    var more := OffsetBits(offset - 1) + rest;
    assert TokenBits(Match(offset, len)) + rest == LowBits(1, 1) + (LengthBits(len - MIN_MATCH) + more);
    TakeBack(1, 1, LengthBits(len - MIN_MATCH) + more);
    LengthReads(len - MIN_MATCH, more);
    OffsetReads(offset - 1, rest);
  }

  function Spanned(t: Token): nat {
    match t
    case Literal(_) => 1
    case Match(_, len) => len
  }

  /** A token takes no more room than literals would, the shortest far matches being ruled out. */
  lemma TokenCost(t: Token)
    requires Sayable(t) && (t.Match? && t.len == MIN_MATCH ==> t.offset <= TOO_FAR)
    ensures |TokenBits(t)| <= 9 * Spanned(t)
  {
    SmallPowers();
    match t {
      case Literal(c) =>
      case Match(offset, len) =>
        var log := LogFrom(offset - 1, FIRST_LOG);
        assert |OffsetBits(offset - 1)| == 4 + if log > FIRST_LOG then log else 6;
        if len == MIN_MATCH && log >= 16 {
          PowersGrow(16, log);
        }
        var k := Tier(len - MIN_MATCH);
        assert |LengthBits(len - MIN_MATCH)| == |Prefix(k)| + TierBits(k);
    }
  }

  // ---- Unpacking ----

  datatype Unpacked = Finished(out: seq<Byte>) | Broken(out: seq<Byte>) | Stopped

  /** What comes after out: all of size at least, or an offset reaching before the start, or the bits run out. */
  function Unpack(bits: Bits, out: seq<Byte>, size: nat): Unpacked
    decreases size - |out|
  {
    if |out| >= size then Finished(out)
    else
      match ReadToken(bits)
      case Short => Stopped
      case Got(Literal(c), rest) => Unpack(rest, out + [c], size)
      case Got(Match(offset, len), rest) =>
        if offset > |out| then Broken(out) else Unpack(rest, BlzTokens.CopyMatch(out, offset, len), size)
  }

  /** A token standing for what x has at cur. */
  ghost predicate Spells(t: Token, x: seq<Byte>, cur: nat) {
    && Sayable(t) && cur + Spanned(t) <= |x|
    && match t
       case Literal(c) => c == x[cur]
       case Match(offset, len) => offset <= cur && x[cur - offset..cur - offset + len] == x[cur..cur + len]
  }

  /** The bits are read back as the first cur of x, whatever comes behind them. */
  ghost predicate Tells(bits: Bits, x: seq<Byte>, cur: nat) {
    cur <= |x| && forall rest: Bits :: Unpack(bits + rest, [], |x|) == Unpack(rest, x[..cur], |x|)
  }

  lemma TellsNothing(x: seq<Byte>)
    ensures Tells([], x, 0)
  {
    forall rest: Bits ensures Unpack([] + rest, [], |x|) == Unpack(rest, x[..0], |x|) {
      assert [] + rest == rest;
    }
  }

  lemma TellsMore(bits: Bits, x: seq<Byte>, cur: nat, t: Token)
    requires Tells(bits, x, cur) && Spells(t, x, cur)
    ensures Tells(bits + TokenBits(t), x, cur + Spanned(t))
  {
    hide TokenBits, Unpack;
    forall rest: Bits ensures Unpack((bits + TokenBits(t)) + rest, [], |x|) == Unpack(rest, x[..cur + Spanned(t)], |x|) {
      TellsOne(bits, x, cur, t, rest);
    }
  }

  lemma TellsOne(bits: Bits, x: seq<Byte>, cur: nat, t: Token, rest: Bits)
    requires Tells(bits, x, cur) && Spells(t, x, cur)
    ensures Unpack((bits + TokenBits(t)) + rest, [], |x|) == Unpack(rest, x[..cur + Spanned(t)], |x|)
  {
    hide TokenBits, Unpack;
    var more := TokenBits(t) + rest;
    assert (bits + TokenBits(t)) + rest == bits + more;
    TokenUnpacks(x, cur, t, rest);
  }

  lemma TokenUnpacks(x: seq<Byte>, cur: nat, t: Token, rest: Bits)
    requires Spells(t, x, cur) && cur < |x|
    ensures Unpack(TokenBits(t) + rest, x[..cur], |x|) == Unpack(rest, x[..cur + Spanned(t)], |x|)
  {
    hide TokenBits, ReadToken, Unpack, BlzTokens.CopyMatch;
    TokenReads(t, rest);
    UnpackStep(TokenBits(t) + rest, x[..cur], |x|, t, rest);
    match t {
      case Literal(c) =>
        assert x[..cur] + [c] == x[..cur + 1];
      case Match(offset, len) =>
        BlzTokens.CopySpells(x, cur, cur - offset, len);
    }
  }

  lemma UnpackStep(bits: Bits, out: seq<Byte>, size: nat, t: Token, rest: Bits)
    requires |out| < size && ReadToken(bits) == Got(t, rest) && (t.Match? ==> t.offset <= |out|)
    ensures t.Literal? ==> Unpack(bits, out, size) == Unpack(rest, out + [t.c], size)
    ensures t.Match? ==> t.offset > 0 && Unpack(bits, out, size) == Unpack(rest, BlzTokens.CopyMatch(out, t.offset, t.len), size)
  {
    hide ReadToken;
  }

  lemma TellsAll(bits: Bits, x: seq<Byte>, whole: Bits)
    requires Tells(bits, x, |x|) && bits <= whole
    ensures Unpack(whole, [], |x|) == Finished(x)
  {
    assert whole == bits + whole[|bits|..] && x[..|x|] == x;
  }
}

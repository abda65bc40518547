/** Tokens of the packed format: what they are written as, and how a stream of them is read. */
module BlzTokens {
  import opened Permutations
  import opened BitStream
  import opened BlzFormat

  const MAX_SIZE := 0xFFFF_FF00
  const VALUE_LIMIT := 0x1_0000_0000
  const OFFSET_LIMIT := 0xFF_FFFF

  function Log2(n: nat): nat {
    if n < 2 then 0 else 1 + Log2(n / 2)
  }

  /** The bits of v after its first, each but the first with a one before it. */
  function GammaPrefix(v: nat): (g: Bits)
    requires v >= 2
    ensures |g| + 1 == 2 * Log2(v)
  {
    if v < 4 then [v % 2 == 1] else GammaPrefix(v / 2) + [true, v % 2 == 1]
  }

  function Gamma(v: nat): (g: Bits)
    requires v >= 2
    ensures |g| == 2 * Log2(v)
  {
    GammaPrefix(v) + [false]
  }

  function BitEvents(bits: Bits): (es: seq<Event>)
    ensures |es| == |bits| && forall i :: 0 <= i < |es| ==> es[i] == Bit(bits[i])
  {
    seq(|bits|, i requires 0 <= i < |bits| => Bit(bits[i]))
  }

  // ---- Reading ----

  datatype Read<T> = Value(v: T, at: Place) | Fail

  function NextBit(s: seq<Byte>, at: Place): Read<bool> {
    match at
    case Off => Fail
    case At(p, t) =>
      if t != [] then Value(t[0], At(p, t[1..]))
      else if p + 2 <= |s| then Value(TagOf(s, p)[0], At(p + 2, TagOf(s, p)[1..]))
      else Fail
  }

  function NextByte(s: seq<Byte>, at: Place): Read<Byte> {
    match at
    case Off => Fail
    case At(p, t) => if p < |s| then Value(s[p], At(p + 1, t)) else Fail
  }

  lemma FollowBit(s: seq<Byte>, at: Place, b: bool)
    requires Follow(s, at, Bit(b)) != Off
    ensures NextBit(s, at) == Value(b, Follow(s, at, Bit(b)))
  {
  }

  lemma FollowByte(s: seq<Byte>, at: Place, c: Byte)
    requires Follow(s, at, Raw(c)) != Off
    ensures NextByte(s, at) == Value(c, Follow(s, at, Raw(c)))
  {
  }

  /** Bits that may still be read. */
  function Remaining(s: seq<Byte>, at: Place): nat {
    match at
    case Off => 0
    case At(p, t) => |t| + if p < |s| then 8 * (|s| - p) else 0
  }

  lemma BitsRunOut(s: seq<Byte>, at: Place)
    ensures NextBit(s, at).Value? ==> Remaining(s, NextBit(s, at).at) < Remaining(s, at)
  {
  }

  /** A gamma code, r being what its bits so far make. */
  function ReadGamma(s: seq<Byte>, at: Place, r: nat): Read<nat>
    decreases Remaining(s, at)
  {
    BitsRunOut(s, at);
    match NextBit(s, at)
    case Fail => Fail
    case Value(b, at1) =>
      BitsRunOut(s, at1);
      if r >= 0x8000_0000 then Fail else AfterValue(s, at1, 2 * r + if b then 1 else 0)
  }

  /** Having all bits of v so far: another one says whether there are more. */
  function AfterValue(s: seq<Byte>, at: Place, v: nat): Read<nat>
    decreases Remaining(s, at)
  {
    BitsRunOut(s, at);
    match NextBit(s, at)
    case Fail => Fail
    case Value(more, at1) => if more then ReadGamma(s, at1, v) else Value(v, at1)
  }

  lemma {:induction false} OffStays(s: seq<Byte>, es: seq<Event>)
    ensures FollowAll(s, Off, es) == Off
  {
    if es != [] {
      OffStays(s, es[..|es| - 1]);
    }
  }

  lemma FollowFirst(s: seq<Byte>, at: Place, e: Event, es: seq<Event>)
    requires FollowAll(s, at, [e] + es) != Off
    ensures Follow(s, at, e) != Off && FollowAll(s, Follow(s, at, e), es) == FollowAll(s, at, [e] + es)
  {
    FollowAllConcat(s, at, [e], es);
    assert [e][..0] == [];
    assert FollowAll(s, at, []) == at;
    assert FollowAll(s, at, [e]) == Follow(s, at, e);
    OffStays(s, es);
  }

  lemma FollowBoth(s: seq<Byte>, at: Place, a: seq<Event>, b: seq<Event>)
    requires FollowAll(s, at, a + b) != Off
    ensures FollowAll(s, at, a) != Off && FollowAll(s, FollowAll(s, at, a), b) == FollowAll(s, at, a + b)
  {
    FollowAllConcat(s, at, a, b);
    OffStays(s, b);
  }

  lemma {:induction false} PrefixReads(s: seq<Byte>, at: Place, v: nat)
    requires 2 <= v < VALUE_LIMIT && FollowAll(s, at, BitEvents(GammaPrefix(v))) != Off
    ensures ReadGamma(s, at, 1) == AfterValue(s, FollowAll(s, at, BitEvents(GammaPrefix(v))), v)
    decreases v
  {
    var b := v % 2 == 1;
    var es := BitEvents(GammaPrefix(v));
    if v < 4 {
      assert es == [Bit(b)] + [];
      FollowFirst(s, at, Bit(b), []);
      FollowBit(s, at, b);
      assert FollowAll(s, Follow(s, at, Bit(b)), []) == Follow(s, at, Bit(b));
    } else {
      var front := BitEvents(GammaPrefix(v / 2));
      assert es == front + ([Bit(true)] + ([Bit(b)] + []));
      hide ReadGamma, AfterValue;
      FollowBoth(s, at, front, [Bit(true)] + ([Bit(b)] + []));
      PrefixReads(s, at, v / 2);
      PairReads(s, FollowAll(s, at, front), v);
    }
  }

  lemma PairReads(s: seq<Byte>, at: Place, v: nat)
    requires 4 <= v < VALUE_LIMIT && FollowAll(s, at, [Bit(true)] + ([Bit(v % 2 == 1)] + [])) != Off
    ensures AfterValue(s, at, v / 2) == AfterValue(s, FollowAll(s, at, [Bit(true)] + ([Bit(v % 2 == 1)] + [])), v)
  {
    var b := v % 2 == 1;
    FollowFirst(s, at, Bit(true), [Bit(b)] + []);
    FollowBit(s, at, true);
    var at1 := Follow(s, at, Bit(true));
    FollowFirst(s, at1, Bit(b), []);
    FollowBit(s, at1, b);
    assert FollowAll(s, Follow(s, at1, Bit(b)), []) == Follow(s, at1, Bit(b));
  }

  /** A gamma code reads as its value. */
  lemma GammaReads(s: seq<Byte>, at: Place, v: nat)
    requires 2 <= v < VALUE_LIMIT && FollowAll(s, at, BitEvents(Gamma(v))) != Off
    ensures ReadGamma(s, at, 1) == Value(v, FollowAll(s, at, BitEvents(Gamma(v))))
  {
    var front := BitEvents(GammaPrefix(v));
    assert BitEvents(Gamma(v)) == front + ([Bit(false)] + []);
    FollowBoth(s, at, front, [Bit(false)] + []);
    PrefixReads(s, at, v);
    hide ReadGamma;
    var at1 := FollowAll(s, at, front);
    FollowFirst(s, at1, Bit(false), []);
    FollowBit(s, at1, false);
    assert FollowAll(s, Follow(s, at1, Bit(false)), []) == Follow(s, at1, Bit(false));
  }

  datatype Option<T> = Some(value: T) | None

  /** len characters from off back, one at a time, so that a copy may overlap itself. */
  function CopyMatch(out: seq<Byte>, off: nat, len: nat): (r: seq<Byte>)
    requires 0 < off <= |out|
    ensures |r| == |out| + len && out <= r
    decreases len
  {
    if len == 0 then out else CopyMatch(out + [out[|out| - off]], off, len - 1)
  }

  datatype Step = Grow(c: Byte) | Copy(off: nat, len: nat)

  /** One token, out characters being there and room more allowed. */
  function ReadStep(s: seq<Byte>, at: Place, have: nat, room: nat): Read<Step> {
    match NextBit(s, at)
    case Fail => Fail
    case Value(m, at1) =>
      if !m then
        match NextByte(s, at1)
        case Fail => Fail
        case Value(c, at2) => if room == 0 then Fail else Value(Grow(c), at2)
      else
        match ReadGamma(s, at1, 1)
        case Fail => Fail
        case Value(l, at2) =>
          match ReadGamma(s, at2, 1)
          case Fail => Fail
          case Value(o, at3) =>
            if o < 2 || o - 2 >= OFFSET_LIMIT then Fail
            else
              match NextByte(s, at3)
              case Fail => Fail
              case Value(c, at4) =>
                var off := (o - 2) * 256 + (c as nat) + 1;
                if off > have || l + 2 > room then Fail else Value(Copy(off, l + 2), at4)
  }

  function Grown(out: seq<Byte>, step: Step): (r: seq<Byte>)
    requires step.Copy? ==> 0 < step.off <= |out|
  {
    match step
    case Grow(c) => out + [c]
    case Copy(off, len) => CopyMatch(out, off, len)
  }

  /** What a stream unpacks to, if it can be unpacked to size bytes. */
  function Depack(s: seq<Byte>, at: Place, out: seq<Byte>, size: nat): (r: Option<seq<Byte>>)
    requires |out| <= size
    ensures r.Some? ==> |r.value| == size
    decreases size - |out|
  {
    if |out| == size then Some(out)
    else
      match ReadStep(s, at, |out|, size - |out|)
      case Fail => None
      case Value(step, at') => Depack(s, at', Grown(out, step), size)
  }

  /** Before the first tag: one bit, a zero, for the first byte. */
  const ENTRY: Place := At(0, [false])

  // ---- Tokens ----

  datatype Token = Literal | Match(pos: nat, len: nat)

  ghost predicate TrueMatch(x: seq<Byte>, cur: nat, pos: nat, len: nat) {
    4 <= len && pos < cur && cur + len <= |x| && x[pos..pos + len] == x[cur..cur + len]
  }

  function Length(t: Token): nat {
    match t
    case Literal => 1
    case Match(_, len) => len
  }

  function TokenEvents(x: seq<Byte>, cur: nat, t: Token): seq<Event>
    requires cur < |x|
    requires t.Match? ==> t.len >= 4 && t.pos < cur
  {
    match t
    case Literal => [Bit(false), Raw(x[cur])]
    case Match(pos, len) =>
      var offs := cur - pos - 1;
      [Bit(true)] + (BitEvents(Gamma(len - 2)) + (BitEvents(Gamma(offs / 256 + 2)) + [Raw(offs % 256)]))
  }

  /** The tokens spell x from cur on. */
  ghost predicate Parses(x: seq<Byte>, cur: nat, ts: seq<Token>)
    decreases |ts|
  {
    if ts == [] then cur == |x|
    else Fits(x, cur, ts[0]) && Parses(x, cur + Length(ts[0]), ts[1..])
  }

  ghost predicate Fits(x: seq<Byte>, cur: nat, t: Token) {
    cur < |x| && (t.Match? ==> TrueMatch(x, cur, t.pos, t.len))
  }

  ghost function Events(x: seq<Byte>, cur: nat, ts: seq<Token>): seq<Event>
    requires Parses(x, cur, ts)
    decreases |ts|
  {
    if ts == [] then [] else TokenEvents(x, cur, ts[0]) + Events(x, cur + Length(ts[0]), ts[1..])
  }

  /** A match copies what it stands for. */
  lemma {:induction false} CopySpells(x: seq<Byte>, cur: nat, pos: nat, len: nat)
    requires pos < cur && cur + len <= |x| && x[pos..pos + len] == x[cur..cur + len]
    ensures CopyMatch(x[..cur], cur - pos, len) == x[..cur + len]
    decreases len
  {
    if len > 0 {
      assert x[pos..pos + len][0] == x[cur..cur + len][0];
      assert x[..cur] + [x[cur]] == x[..cur + 1];
      assert x[pos + 1..pos + len] == x[pos..pos + len][1..] == x[cur..cur + len][1..] == x[cur + 1..cur + len];
      CopySpells(x, cur + 1, pos + 1, len - 1);
    }
  }

  lemma LiteralReads(x: seq<Byte>, cur: nat, s: seq<Byte>, at: Place, room: nat)
    requires cur < |x| && FollowAll(s, at, TokenEvents(x, cur, Literal)) != Off && room > 0
    ensures ReadStep(s, at, cur, room) == Value(Grow(x[cur]), FollowAll(s, at, TokenEvents(x, cur, Literal)))
  {
    var c := x[cur];
    assert TokenEvents(x, cur, Literal) == [Bit(false)] + ([Raw(c)] + []);
    FollowFirst(s, at, Bit(false), [Raw(c)] + []);
    FollowBit(s, at, false);
    var at1 := Follow(s, at, Bit(false));
    FollowFirst(s, at1, Raw(c), []);
    FollowByte(s, at1, c);
    assert FollowAll(s, Follow(s, at1, Raw(c)), []) == Follow(s, at1, Raw(c));
  }

  lemma MatchReads(x: seq<Byte>, cur: nat, t: Token, s: seq<Byte>, at: Place, room: nat)
    requires Fits(x, cur, t) && t.Match? && t.len <= room && |x| <= MAX_SIZE
    requires FollowAll(s, at, TokenEvents(x, cur, t)) != Off
    ensures ReadStep(s, at, cur, room) == Value(Copy(cur - t.pos, t.len), FollowAll(s, at, TokenEvents(x, cur, t)))
  {
    hide ReadGamma, Gamma, BitEvents;
    var offs := cur - t.pos - 1;
    var l, o, c: Byte := t.len - 2, offs / 256 + 2, offs % 256;
    var gl, go := BitEvents(Gamma(l)), BitEvents(Gamma(o));
    FollowFirst(s, at, Bit(true), gl + (go + [Raw(c)]));
    FollowBit(s, at, true);
    var at1 := Follow(s, at, Bit(true));
    FollowBoth(s, at1, gl, go + [Raw(c)]);
    GammaReads(s, at1, l);
    var at2 := FollowAll(s, at1, gl);
    FollowBoth(s, at2, go, [Raw(c)]);
    GammaReads(s, at2, o);
    var at3 := FollowAll(s, at2, go);
    assert [Raw(c)] == [Raw(c)] + [];
    FollowFirst(s, at3, Raw(c), []);
    FollowByte(s, at3, c);
    assert FollowAll(s, Follow(s, at3, Raw(c)), []) == Follow(s, at3, Raw(c));
    assert (o - 2) * 256 + (c as nat) + 1 == cur - t.pos;
  }

  /** Tokens read in order rebuild x from cur on. */
  lemma {:induction false} TokensRead(x: seq<Byte>, cur: nat, ts: seq<Token>, s: seq<Byte>, at: Place)
    requires Parses(x, cur, ts) && |x| <= MAX_SIZE && cur <= |x|
    requires FollowAll(s, at, Events(x, cur, ts)) != Off
    ensures Depack(s, at, x[..cur], |x|) == Some(x)
    decreases |ts|
  {
    hide *;
    if ts == [] {
      AtEnd(x, cur, s, at);
    } else {
      var t := ts[0];
      FirstToken(x, cur, ts);
      FollowBoth(s, at, TokenEvents(x, cur, t), Events(x, cur + Length(t), ts[1..]));
      OneTokenReads(x, cur, t, s, at);
      TokensRead(x, cur + Length(t), ts[1..], s, FollowAll(s, at, TokenEvents(x, cur, t)));
    }
  }

  lemma AtEnd(x: seq<Byte>, cur: nat, s: seq<Byte>, at: Place)
    requires Parses(x, cur, [])
    ensures cur == |x| && Depack(s, at, x[..cur], |x|) == Some(x)
  {
    assert x[..cur] == x;
  }

  lemma FirstToken(x: seq<Byte>, cur: nat, ts: seq<Token>)
    requires Parses(x, cur, ts) && ts != []
    ensures Fits(x, cur, ts[0]) && Parses(x, cur + Length(ts[0]), ts[1..])
    ensures cur < |x| && (ts[0].Match? ==> ts[0].len >= 4 && ts[0].pos < cur)
    ensures Events(x, cur, ts) == TokenEvents(x, cur, ts[0]) + Events(x, cur + Length(ts[0]), ts[1..])
  {
  }

  lemma OneTokenReads(x: seq<Byte>, cur: nat, t: Token, s: seq<Byte>, at: Place)
    requires Fits(x, cur, t) && |x| <= MAX_SIZE && FollowAll(s, at, TokenEvents(x, cur, t)) != Off
    ensures cur + Length(t) <= |x|
    ensures Depack(s, at, x[..cur], |x|)
            == Depack(s, FollowAll(s, at, TokenEvents(x, cur, t)), x[..cur + Length(t)], |x|)
  {
    hide ReadStep, TokenEvents, FollowAll;
    match t
    case Literal =>
      LiteralReads(x, cur, s, at, |x| - cur);
      assert x[..cur] + [x[cur]] == x[..cur + 1];
    case Match(pos, len) =>
      MatchReads(x, cur, t, s, at, |x| - cur);
      CopySpells(x, cur, pos, len);
  }

  /** The first byte stays where it is. */
  lemma {:induction false} FirstStays(first: Byte, es: seq<Event>)
    ensures var p := PutAll(Start(first), es); p.closed != [] && p.closed[0] == first
  {
    if es != [] {
      FirstStays(first, es[..|es| - 1]);
    }
  }

  /** What x packs to, given tokens for all but its first byte. */
  ghost function PackedBytes(x: seq<Byte>, ts: seq<Token>): seq<Byte>
    requires |x| > 1 ==> Parses(x, 1, ts)
  {
    if x == [] then []
    else if |x| == 1 then [x[0]]
    else Finish(PutAll(Start(x[0]), Events(x, 1, ts)))
  }

  lemma EventsStart(x: seq<Byte>, cur: nat, ts: seq<Token>)
    requires Parses(x, cur, ts) && cur < |x|
    ensures Events(x, cur, ts) != [] && Events(x, cur, ts)[0].Bit?
  {
  }

  /** Packing with any tokens that spell x, and unpacking to the size of x, gives x. */
  lemma DepackPacked(x: seq<Byte>, ts: seq<Token>)
    requires (|x| > 1 ==> Parses(x, 1, ts)) && |x| <= MAX_SIZE
    ensures Depack(PackedBytes(x, ts), ENTRY, [], |x|) == Some(x)
  {
    if x != [] {
      var s := PackedBytes(x, ts);
      if |x| > 1 {
        EventsStart(x, 1, ts);
        var es := Events(x, 1, ts);
        hide Events, TokenEvents, Parses, ReadStep, Depack, TagBytes, Put, FollowAll, Follow;
        FirstStays(x[0], es + [Bit(true)]);
        var q := PutAll(Start(x[0]), es + [Bit(true)]);
        var fill := Zeros(TAG_BITS - |q.bits|);
        PutReads(x[0], es + [Bit(true)], fill, []);
        assert (es + [Bit(true)])[..|es|] == es;
        assert s == Complete(q, fill) + [];
        FirstByte(s, x);
        FollowBoth(s, At(1, []), es, [Bit(true)]);
        TokensRead(x, 1, ts, s, At(1, []));
      } else {
        FirstByte(s, x);
        assert x[..1] == x;
      }
    }
  }

  lemma FirstByte(s: seq<Byte>, x: seq<Byte>)
    requires x != [] && s != [] && s[0] == x[0]
    ensures ReadStep(s, ENTRY, 0, |x|) == Value(Grow(x[0]), At(1, []))
    ensures Depack(s, ENTRY, [], |x|) == Depack(s, At(1, []), x[..1], |x|)
  {
    assert [] + [x[0]] == x[..1];
    assert [false][1..] == [];
  }
}

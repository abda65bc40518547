/** Crush: the compressor's search and output, the decompressor, and the way there and back. */
module Crush {
  import opened Permutations
  import opened HeaderBits
  import opened BitStream
  import opened CrushBits
  import opened CrushFormat
  import opened CrushChains
  import opened CrushChoice

  // ---- Search ----

  /** How far the characters from s and from p on agree, the first ones agreeing. */
  method MatchRun(x: seq<Byte>, s: nat, p: nat, limit: nat) returns (l: nat)
    requires s < p && p + limit <= |x| && 1 <= limit && x[s] == x[p]
    ensures 1 <= l <= limit && l == Agreeing(x, s, p, 0, limit) && x[s..s + l] == x[p..p + l]
  {
    l := 1;
    while l < limit && x[s + l] == x[p + l]
      invariant 1 <= l <= limit && Agreeing(x, s, p, l, limit) == Agreeing(x, s, p, 0, limit)
    {
      l := l + 1;
    }
    AgreeingSame(x, s, p, 0, limit);
  }

  /** How many times a is cut to an eighth until it is no more than b. */
  method Penalty(a: nat, b: nat) returns (k: nat)
    ensures k == Cuts(a, b)
  {
    k := 0;
    var c: nat := a;
    while c > b
      invariant k + Cuts(c, b) == Cuts(a, b)
      decreases c
    {
      c := c / 8;
      k := k + 1;
    }
  }

  /** The last position with the same three characters' hash. */
  method SearchShort(x: seq<Byte>, head: array<int>, ghost prev: seq<int>, h1: nat, p: nat, maxMatch: nat) returns (len: nat, offset: nat)
    requires Chained(head[..], prev, x, p) && p + 4 <= |x| && h1 == HashAt(x, false, p) && 1 <= maxMatch <= MAX_MATCH && p + maxMatch + 3 <= |x|
    ensures Found(x, p, maxMatch, len, offset) && len >= MIN_MATCH - 1 && (len, offset) == ShortMatch(x, p, maxMatch)
  {
    hide Chained, Latest, HashAt;
    len, offset := MIN_MATCH - 1, W_SIZE;
    HeadIs(head[..], prev, x, p, h1);
    assert head[..][h1] == head[h1];
    if head[h1] >= Limit(p) {
      var s := head[h1];
      if x[s] == x[p] {
        var l := MatchRun(x, s, p, maxMatch);
        if l > len {
          len, offset := l, p - s;
        }
      }
    }
  }

  /** Along the chain of the four characters' hash. */
  method SearchChain(x: seq<Byte>, head: array<int>, prev: array<int>, level: nat, h2: nat, p: nat, maxMatch: nat, len0: nat, offset0: nat)
    returns (len: nat, offset: nat)
    requires Chained(head[..], prev[..], x, p) && p + 4 <= |x| && h2 == HashAt(x, true, p) && 1 <= maxMatch <= MAX_MATCH && p + maxMatch + 3 <= |x|
    requires level <= 2 && Found(x, p, maxMatch, len0, offset0) && len0 >= MIN_MATCH - 1
    ensures Found(x, p, maxMatch, len, offset) && len >= MIN_MATCH - 1
    ensures (len, offset) == LongMatch(x, p, maxMatch, Latest(x, true, h2, p), MaxChain(level), len0, offset0)
  {
    hide Chained, Latest, HashAt, Masked, Cuts, LongMatch, Found, Agreeing, Link;
    len, offset := len0, offset0;
    HeadIs(head[..], prev[..], x, p, h2);
    var chainLen := MaxChain(level);
    var s := head[..][h2 + HASH1_SIZE];
    FoundLength(x, p, maxMatch, len, offset);
    ghost var want := LongMatch(x, p, maxMatch, s, chainLen, len, offset);
    while chainLen != 0 && s >= Limit(p)
      invariant s < p && Found(x, p, maxMatch, len, offset) && len >= MIN_MATCH - 1 && (len <= maxMatch || len == MIN_MATCH - 1)
      invariant LongMatch(x, p, maxMatch, s, chainLen, len, offset) == want
      decreases chainLen
    {
      LongMatchOn(x, p, maxMatch, s, chainLen, len, offset);
      chainLen := chainLen - 1;
      if x[s + len] == x[p + len] && x[s] == x[p] {
        var l := MatchRun(x, s, p, maxMatch);
        var penalty := Penalty((p - s) / 16, offset);
        if l > len + penalty {
          FoundAt(x, p, maxMatch, s, l);
          len, offset := l, p - s;
        }
        if l == maxMatch {
          return;
        }
      }
      LinkIs(head[..], prev[..], x, p, s);
      LinkOf(x, s);
      s := prev[..][Masked(s)];
    }
    LongMatchOver(x, p, maxMatch, s, chainLen, len, offset);
  }

  lemma FoundLength(x: seq<Byte>, p: nat, maxMatch: nat, len: nat, offset: nat)
    requires Found(x, p, maxMatch, len, offset)
    ensures len <= maxMatch || len == MIN_MATCH - 1
  {
  }

  lemma FoundAt(x: seq<Byte>, p: nat, maxMatch: nat, s: nat, l: nat)
    requires Limit(p) <= s < p && l <= maxMatch <= MAX_MATCH && p + maxMatch <= |x| && x[s..s + l] == x[p..p + l]
    ensures Found(x, p, maxMatch, l, p - s)
  {
  }

  lemma LinkOf(x: seq<Byte>, s: nat)
    requires s + 4 <= |x|
    ensures Link(x, s) == Latest(x, true, HashAt(x, true, s), s)
  {
  }

  /** Whether the next position has a match so much longer that this one is not taken. */
  method NextIsBetter(x: seq<Byte>, head: array<int>, prev: array<int>, level: nat, h2: nat, p: nat, maxMatch: nat, len: nat, offset: nat)
    returns (better: bool)
    requires Chained(head[..], prev[..], x, p) && maxMatch <= MAX_MATCH && p + maxMatch + 4 <= |x| && p + 5 <= |x|
    requires level <= 2 && len < maxMatch && h2 == HashAt(x, true, p)
    ensures better == NextLonger(x, p, MinOf(len + 4, maxMatch), Latest(x, true, HashAt(x, true, p + 1), p), MaxChain(level), len, offset)
  {
    hide Chained, Latest, HashAt, Masked, UpdateHash2, Cuts;
    var nextP := p + 1;
    var maxLazy := MinOf(len + 4, maxMatch);
    Rolls(x, p);
    var h := UpdateHash2(h2, x[nextP + 3]);
    HeadIs(head[..], prev[..], x, p, h);
    var chainLen := MaxChain(level);
    var s := head[..][h + HASH1_SIZE];
    ghost var want := NextLonger(x, p, maxLazy, s, chainLen, len, offset);
    better := false;
    while chainLen != 0 && s >= Limit(p)
      invariant s < p && NextLonger(x, p, maxLazy, s, chainLen, len, offset) == want
      decreases chainLen
    {
      chainLen := chainLen - 1;
      if x[s + len] == x[nextP + len] && x[s] == x[nextP] {
        var l := MatchRun(x, s, nextP, maxLazy);
        var penalty := Penalty(nextP - s, offset);
        if l > len + penalty {
          return true;
        }
        if l == maxLazy {
          return false;
        }
      }
      LinkIs(head[..], prev[..], x, p, s);
      s := prev[..][Masked(s)];
    }
  }

  /** What to say for position p: a match if the length is at least the shortest, else a literal. */
  method Choose(x: seq<Byte>, size: nat, head: array<int>, prev: array<int>, level: nat, h1: nat, h2: nat, p: nat)
    returns (len: nat, offset: nat)
    requires p < size && size + 4 <= |x| && level <= 2 && Chained(head[..], prev[..], x, p)
    requires h1 == HashAt(x, false, p) && h2 == HashAt(x, true, p)
    ensures (len, offset) == Taken(x, size, level, p)
    ensures len >= MIN_MATCH ==> Spells(Match(offset, len), x[..size], p) && (len == MIN_MATCH ==> offset <= TOO_FAR)
  {
    hide Chained, HashAt, LongMatch, NextLonger, Latest;
    var maxMatch := MinOf(MAX_MATCH, size - p);
    len, offset := SearchShort(x, head, prev[..], h1, p, maxMatch);
    if len < MAX_MATCH {
      len, offset := SearchChain(x, head, prev, level, h2, p, maxMatch, len, offset);
    }
    if len == MIN_MATCH && offset > TOO_FAR {
      len := 0;
    }
    if level >= 2 && len >= MIN_MATCH && len < maxMatch {
      var better := NextIsBetter(x, head, prev, level, h2, p, maxMatch, len, offset);
      if better {
        len := 0;
      }
    }
    if len >= MIN_MATCH {
      FoundSpells(x, size, p, maxMatch, len, offset);
    }
  }

  lemma FoundSpells(x: seq<Byte>, size: nat, p: nat, maxMatch: nat, len: nat, offset: nat)
    requires Found(x, p, maxMatch, len, offset) && len >= MIN_MATCH && p + maxMatch <= size <= |x|
    ensures Spells(Match(offset, len), x[..size], p)
  {
    var y := x[..size];
    assert y[p - offset..p - offset + len] == x[p - offset..p - offset + len] && y[p..p + len] == x[p..p + len];
  }

  // ---- Output ----

  method PutLength(sink: BitSink, l: nat)
    requires sink.Valid() && l < LENGTHS && |sink.Emitted()| + |LengthBits(l)| <= 8 * sink.outbuf.Length
    modifies sink, sink.outbuf
    ensures sink.Valid() && sink.Emitted() == old(sink.Emitted()) + LengthBits(l)
  {
    hide BitSink.Emitted, BitSink.Valid, LowBits;
    TierBases();
    SmallPowers();
    if l < 4 {
      sink.PutBits(1, 1);
      sink.PutBits(2, l);
    } else if l < 8 {
      sink.PutBits(2, 2);
      sink.PutBits(2, l - 4);
    } else if l < 12 {
      sink.PutBits(3, 4);
      sink.PutBits(2, l - 8);
    } else if l < 20 {
      sink.PutBits(4, 8);
      sink.PutBits(3, l - 12);
    } else if l < 52 {
      sink.PutBits(5, 16);
      sink.PutBits(5, l - 20);
    } else {
      sink.PutBits(5, 0);
      sink.PutBits(9, l - 52);
    }
  }

  method SlotLog(o: nat) returns (log: nat)
    requires o < Pow2(W_BITS)
    ensures log == LogFrom(o, FIRST_LOG)
  {
    hide LogFrom;
    log := FIRST_LOG;
    while o >= 2 * Pow2(log)
      invariant FIRST_LOG <= log < W_BITS && LogFrom(o, log) == LogFrom(o, FIRST_LOG)
      decreases W_BITS - log
    {
      LogHigher(o, log);
      log := log + 1;
    }
    LogFound(o, log);
  }

  method PutOffset(sink: BitSink, o: nat)
    requires sink.Valid() && o < Pow2(W_BITS) && |sink.Emitted()| + |OffsetBits(o)| <= 8 * sink.outbuf.Length
    modifies sink, sink.outbuf
    ensures sink.Valid() && sink.Emitted() == old(sink.Emitted()) + OffsetBits(o)
  {
    hide BitSink.Emitted, BitSink.Valid, LowBits, LogFrom;
    SmallPowers();
    var log := SlotLog(o);
    sink.PutBits(4, log - FIRST_LOG);
    if log > FIRST_LOG {
      sink.PutBits(log, o - Pow2(log));
    } else {
      sink.PutBits(6, o);
    }
  }

  method PutToken(sink: BitSink, t: Token)
    requires sink.Valid() && Sayable(t) && |sink.Emitted()| + |TokenBits(t)| <= 8 * sink.outbuf.Length
    modifies sink, sink.outbuf
    ensures sink.Valid() && sink.Emitted() == old(sink.Emitted()) + TokenBits(t)
  {
    hide BitSink.Emitted, LowBits, LengthBits, OffsetBits;
    SmallPowers();
    match t {
      case Literal(c) =>
        assert Pow2(9) == 2 * Pow2(8);
        sink.PutBits(9, 2 * c);
      case Match(offset, len) =>
        ghost var was := sink.Emitted();
        sink.PutBits(1, 1);
        PutLength(sink, len - MIN_MATCH);
        PutOffset(sink, offset - 1);
        assert sink.Emitted() == was + TokenBits(t);
    }
  }

  /** Enters len positions. */
  method Insert(x: seq<Byte>, size: nat, head: array<int>, prev: array<int>, h1: nat, h2: nat, p: nat, len: nat) returns (h1': nat, h2': nat)
    requires p + len <= size && size + 4 <= |x| && head != prev && Chained(head[..], prev[..], x, p)
    requires h1 == HashAt(x, false, p) && h2 == HashAt(x, true, p)
    modifies head, prev
    ensures Chained(head[..], prev[..], x, p + len) && h1' == HashAt(x, false, p + len) && h2' == HashAt(x, true, p + len)
  {
    hide Chained, HashAt;
    h1', h2' := h1, h2;
    var q := p;
    while q < p + len
      invariant p <= q <= p + len && Chained(head[..], prev[..], x, q)
      invariant h1' == HashAt(x, false, q) && h2' == HashAt(x, true, q)
    {
      h1', h2' := InsertOne(x, head, prev, h1', h2', q);
      q := q + 1;
    }
  }

  /**
   * Compresses the first size characters of x; four more must be readable. What is said is what is chosen at
   * each position, and nothing else but the padding of the last byte.
   */
  method Compress(level: nat, x: seq<Byte>, size: nat, outbuf: array<Byte>, head: array<int>, prev: array<int>)
    returns (n: nat, ghost ts: seq<Token>)
    requires level <= 2 && size + 4 <= |x| && 9 * size + 7 <= 8 * outbuf.Length
    requires head.Length == HASH1_SIZE + HASH2_SIZE && prev.Length == W_SIZE && head != prev
    requires outbuf as object != head && outbuf as object != prev
    modifies outbuf, head, prev
    ensures n <= outbuf.Length && 8 * n <= 9 * size + 7
    ensures Unpack(BytesBits(outbuf[..n]), [], size) == Finished(x[..size])
    ensures Chosen(x, size, level, ts, size) && AllSayable(ts)
    ensures TokensBits(ts) <= BytesBits(outbuf[..n]) && |BytesBits(outbuf[..n])| <= |TokensBits(ts)| + 7
  {
    hide Chained, HashAt, Tells, BitSink.Emitted, Spells, TokenBits, Unpack, Chosen, AllSayable, TokensBits, TokenAt;
    ts := [];
    ChosenNone(x, size, level);
    ghost var y := x[..size];
    InitHeads(head, prev, x);
    var h1, h2 := FirstHashes(x);
    var sink := new BitSink(outbuf);
    TellsNothing(y);
    var p := 0;
    while p < size
      invariant p <= size && fresh(sink) && sink.outbuf == outbuf && sink.Valid() && |sink.Emitted()| <= 9 * p && Tells(sink.Emitted(), y, p)
      invariant Chosen(x, size, level, ts, p) && AllSayable(ts) && TokensBits(ts) == sink.Emitted()
      invariant Chained(head[..], prev[..], x, p) && h1 == HashAt(x, false, p) && h2 == HashAt(x, true, p)
    {
      var len, offset := Choose(x, size, head, prev, level, h1, h2, p);
      var t := if len >= MIN_MATCH then Match(offset, len) else Literal(x[p]);
      ThisToken(x, size, level, p, t);
      ts := Say(sink, x, size, level, p, t, ts);
      h1, h2 := Insert(x, size, head, prev, h1, h2, p, Spanned(t));
      p := p + Spanned(t);
    }
    ghost var said := sink.Emitted();
    sink.FlushBits();
    n := sink.pos;
    TellsAll(said, y, BytesBits(outbuf[..n]));
  }

  /** Writes the token chosen at p. */
  method Say(sink: BitSink, x: seq<Byte>, size: nat, ghost level: nat, p: nat, t: Token, ghost ts: seq<Token>) returns (ghost ts': seq<Token>)
    requires level <= 2 && p < size && size + 4 <= |x| && 9 * size + 7 <= 8 * sink.outbuf.Length
    requires t == TokenAt(x, size, level, p) && if t.Literal? then t.c == x[p] else Spells(t, x[..size], p)
    requires t.Match? && t.len == MIN_MATCH ==> t.offset <= TOO_FAR
    requires sink.Valid() && |sink.Emitted()| <= 9 * p && Tells(sink.Emitted(), x[..size], p)
    requires Chosen(x, size, level, ts, p) && AllSayable(ts) && TokensBits(ts) == sink.Emitted()
    modifies sink, sink.outbuf
    ensures sink.Valid() && 1 <= Spanned(t) && p + Spanned(t) <= size
    ensures |sink.Emitted()| <= 9 * (p + Spanned(t)) && Tells(sink.Emitted(), x[..size], p + Spanned(t))
    ensures Chosen(x, size, level, ts', p + Spanned(t)) && AllSayable(ts') && TokensBits(ts') == sink.Emitted()
  {
    hide BitSink.Emitted, Tells, Spells, TokenBits, Chosen, AllSayable, TokensBits, TokenAt;
    ghost var y := x[..size];
    SpellsWhat(t, y, p);
    ChosenNext(x, size, level, ts, p);
    ts' := ts + [t];
    TokenCost(t);
    TellsMore(sink.Emitted(), y, p, t);
    PutToken(sink, t);
  }

  lemma ChosenNone(x: seq<Byte>, size: nat, level: nat)
    requires size + 4 <= |x| && level <= 2
    ensures Chosen(x, size, level, [], 0) && AllSayable([]) && TokensBits([]) == []
  {
  }

  lemma ThisToken(x: seq<Byte>, size: nat, level: nat, p: nat, t: Token)
    requires p < size && size + 4 <= |x| && level <= 2
    requires var r := Taken(x, size, level, p); t == if r.0 >= MIN_MATCH then Match(r.1, r.0) else Literal(x[p])
    ensures t == TokenAt(x, size, level, p)
  {
  }

  lemma SpellsWhat(t: Token, y: seq<Byte>, p: nat)
    requires p < |y| && if t.Literal? then t.c == y[p] else Spells(t, y, p)
    ensures Spells(t, y, p) && Sayable(t) && p + Spanned(t) <= |y|
  {
  }

  lemma LogHigher(o: nat, log: nat)
    requires log < W_BITS && 2 * Pow2(log) <= o < Pow2(W_BITS)
    ensures log + 1 < W_BITS && LogFrom(o, log) == LogFrom(o, log + 1)
  {
    assert Pow2(log + 1) == 2 * Pow2(log);
  }

  lemma LogFound(o: nat, log: nat)
    requires log < W_BITS && o < 2 * Pow2(log) && o < Pow2(W_BITS)
    ensures LogFrom(o, log) == log
  {
  }

  // ---- Decompression ----

  /** What is unpacked so far stays. */
  lemma {:induction false} UnpackGrows(bits: Bits, out: seq<Byte>, size: nat)
    requires Unpack(bits, out, size) != Stopped
    ensures out <= Unpack(bits, out, size).out
    decreases size - |out|
  {
    hide ReadToken;
    if |out| < size {
      match ReadToken(bits)
      case Got(Literal(c), rest) =>
        UnpackGrows(rest, out + [c], size);
      case Got(Match(offset, len), rest) =>
        if offset <= |out| {
          UnpackGrows(rest, BlzTokens.CopyMatch(out, offset, len), size);
        }
    }
  }

  /** The result u is reached by the token t and the bits after it. */
  ghost predicate Goes(u: Unpacked, t: Token, rest: Bits, out: seq<Byte>, size: nat) {
    match t
    case Literal(c) => u == Unpack(rest, out + [c], size) && !u.Stopped? && |out| < |u.out|
    case Match(offset, len) =>
      if offset > |out| then u == Broken(out)
      else offset > 0 && u == Unpack(rest, BlzTokens.CopyMatch(out, offset, len), size) && !u.Stopped? && |out| + len <= |u.out|
  }

  /** What one more token leaves to unpack. */
  lemma UnpackNext(bits: Bits, out: seq<Byte>, size: nat)
    requires Unpack(bits, out, size) != Stopped && |out| < size
    ensures ReadToken(bits).Got? && Goes(Unpack(bits, out, size), ReadToken(bits).v, ReadToken(bits).rest, out, size)
  {
    hide ReadToken;
    var r := ReadToken(bits);
    if r.v.Literal? {
      UnpackGrows(r.rest, out + [r.v.c], size);
    } else if r.v.offset <= |out| {
      UnpackGrows(r.rest, BlzTokens.CopyMatch(out, r.v.offset, r.v.len), size);
    }
  }

  method GetLength(src: BitSource) returns (l: nat)
    requires src.Valid() && ReadLength(src.Left()).Got?
    modifies src
    ensures src.Valid() && ReadLength(old(src.Left())) == Got(l, src.Left())
  {
    hide BitSource.Left, BitSource.Valid;
    TierBases();
    var b := src.GetBits(1);
    if b != 0 {
      l := src.GetBits(2);
    } else {
      b := src.GetBits(1);
      if b != 0 {
        l := src.GetBits(2);
        l := l + 4;
      } else {
        l := GetLongLength(src);
      }
    }
  }

  /** A length of the third tier or a later one. */
  method GetLongLength(src: BitSource) returns (l: nat)
    requires src.Valid() && ReadLengthFrom(src.Left(), 2).Got?
    modifies src
    ensures src.Valid() && ReadLengthFrom(old(src.Left()), 2) == Got(l, src.Left())
  {
    hide BitSource.Left, BitSource.Valid;
    TierBases();
    var b := src.GetBits(1);
    if b != 0 {
      l := src.GetBits(2);
      l := l + 8;
    } else {
      b := src.GetBits(1);
      if b != 0 {
        l := src.GetBits(3);
        l := l + 12;
      } else {
        b := src.GetBits(1);
        if b != 0 {
          l := src.GetBits(5);
          l := l + 20;
        } else {
          l := src.GetBits(9);
          l := l + 52;
        }
      }
    }
  }

  method GetOffset(src: BitSource) returns (o: nat)
    requires src.Valid() && ReadOffset(src.Left()).Got?
    modifies src
    ensures src.Valid() && ReadOffset(old(src.Left())) == Got(o, src.Left())
  {
    hide BitSource.Left, BitSource.Valid;
    var slot := src.GetBits(4);
    var log := slot + FIRST_LOG;
    if log > FIRST_LOG {
      o := src.GetBits(log);
      o := o + Pow2(log);
    } else {
      o := src.GetBits(6);
    }
  }

  /** Copies n characters from s to p one by one, so that they may overlap. */
  method CopyFrom(outbuf: array<Byte>, p: nat, s: nat, n: nat)
    requires s < p && p + n <= outbuf.Length
    modifies outbuf
    ensures outbuf[..p + n] == BlzTokens.CopyMatch(old(outbuf[..p]), p - s, n)
  {
    for k := 0 to n
      invariant BlzTokens.CopyMatch(outbuf[..p + k], p - s, n - k) == BlzTokens.CopyMatch(old(outbuf[..p]), p - s, n)
    {
      ghost var was := outbuf[..p + k];
      outbuf[p + k] := outbuf[s + k];
      assert outbuf[..p + k + 1] == was + [was[|was| - (p - s)]];
    }
  }

  /** One token read and written out, unless it is broken. */
  method OneToken(src: BitSource, outbuf: array<Byte>, p: nat, outsize: nat) returns (p': nat, broken: bool)
    requires src.Valid() && p < outsize && p <= outbuf.Length
    requires var u := Unpack(src.Left(), outbuf[..p], outsize); u != Stopped && |u.out| <= outbuf.Length
    modifies src, outbuf
    ensures src.Valid() && p <= p' <= outbuf.Length
    ensures broken ==> old(Unpack(src.Left(), outbuf[..p], outsize)) == Broken(outbuf[..p])
    ensures !broken ==> p < p' && Unpack(src.Left(), outbuf[..p'], outsize) == old(Unpack(src.Left(), outbuf[..p], outsize))
  {
    hide BitSource.Left, ReadLength, ReadOffset, Unpack;
    ghost var left, out := src.Left(), outbuf[..p];
    UnpackNext(left, out, outsize);
    var b := src.GetBits(1);
    if b != 0 {
      var l := GetLength(src);
      var o := GetOffset(src);
      if o + 1 > p {
        return p, true;
      }
      CopyFrom(outbuf, p, p - (o + 1), l + MIN_MATCH);
      p' := p + l + MIN_MATCH;
    } else {
      outbuf[p] := src.GetBits(8);
      p' := p + 1;
      assert outbuf[..p'] == out + [outbuf[p]];
    }
    broken := false;
  }

  /** Decompresses to outsize characters or a little more; 0 for an offset that reaches before the start. */
  method Decompress(inbuf: seq<Byte>, outbuf: array<Byte>, outsize: int) returns (n: nat)
    requires outsize >= 1 ==> var u := Unpack(BytesBits(inbuf), [], outsize); u != Stopped && |u.out| <= outbuf.Length
    modifies outbuf
    ensures outsize < 1 ==> n == 0 && outbuf[..] == old(outbuf[..])
    ensures outsize >= 1 ==>
              match Unpack(BytesBits(inbuf), [], outsize)
              case Finished(out) => n == |out| && |out| <= outbuf.Length && outbuf[..n] == out
              case Broken(out) => n == 0 && |out| <= outbuf.Length && outbuf[..|out|] == out
  {
    if outsize < 1 {
      return 0;
    }
    hide BitSource.Left, BitSource.Valid, ReadToken, Unpack;
    var src := new BitSource(inbuf);
    var p := 0;
    ghost var u := Unpack(BytesBits(inbuf), [], outsize);
    while p < outsize
      invariant p <= outbuf.Length && fresh(src) && src.Valid() && Unpack(src.Left(), outbuf[..p], outsize) == u
      decreases outsize - p
    {
      var broken;
      p, broken := OneToken(src, outbuf, p, outsize);
      if broken {
        return 0;
      }
    }
    n := p;
  }

  // ---- There and back ----

  /** The bytes compressed at any level fit their bound, unpack to x, and are decompressed to it. */
  method RoundTrip(level: nat, x: seq<Byte>, size: nat, packed: array<Byte>, head: array<int>, prev: array<int>, back: array<Byte>)
    returns (out: seq<Byte>, ghost ts: seq<Token>)
    requires 1 <= size && level <= 2 && size + 4 <= |x| && 9 * size + 7 <= 8 * packed.Length && back.Length >= size
    requires head.Length == HASH1_SIZE + HASH2_SIZE && prev.Length == W_SIZE && head != prev
    requires packed as object != head && packed as object != prev
    modifies packed, head, prev, back
    ensures 8 * |out| <= 9 * size + 7 && Unpack(BytesBits(out), [], size) == Finished(x[..size])
    ensures Chosen(x, size, level, ts, size) && AllSayable(ts) && TokensBits(ts) <= BytesBits(out)
    ensures back[..size] == x[..size]
  {
    hide Unpack, Chosen, AllSayable, TokensBits;
    var n;
    n, ts := Compress(level, x, size, packed, head, prev);
    out := packed[..n];
    var m := Decompress(out, back, size);
  }
}

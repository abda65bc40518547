/** All levels, and their round trip through both decoders. */
module BlzLevels {
  import opened Permutations
  import opened HeaderBits
  import opened BlzTokens
  import opened BlzPack
  import opened BlzCost
  import opened BlzChoice
  import opened BlzLookup
  import opened BlzEncoder
  import opened BlzForward
  import opened BlzLeparse
  import opened BlzLeparseShared
  import opened BlzBtparseMain
  import opened BlzDecoder

  const UNLIMITED: nat := 0xFFFF_FFFF_FFFF_FFFF

  // ---- The published bound at the levels that do not weigh costs ----

  /** A match of five bytes from further back takes more than nine bits a byte. */
  const FAR := 67108352

  /** Exactly the matches of five bytes that are too far back cost more than five literals. */
  lemma FiveFar(offs: nat)
    ensures MatchCost(offs, 5) <= 5 * LITERAL_COST <==> offs < FAR
  {
    assert Log2(3) == 1 + Log2(1) == 1;
    LogAgainst(offs / 256 + 2);
  }

  /** Where the logarithm passes seventeen. */
  lemma LogAgainst(v: nat)
    ensures Log2(v) <= 17 <==> v < 262144
  {
    Pow2Of18();
    if v < 262144 {
      LogBelow(v, 17);
    } else {
      LogMonotone(262144, v);
      LogPow(18);
    }
  }

  lemma Pow2Of18()
    ensures Pow2(18) == 262144
  {
    assert Pow2(9) == 512;
    assert Pow2(18) == 262144;
  }

  lemma {:induction false} LogPow(k: nat)
    ensures Log2(Pow2(k)) == k
  {
    if k > 0 {
      LogPow(k - 1);
      assert Pow2(k) / 2 == Pow2(k - 1);
    }
  }

  /** What greedy and lazy packing take costs at most nine bits a byte, short of that distance. */
  lemma ChosenCost(cur: nat, t: Token)
    requires t.Match? ==> t.len >= 4 && t.pos < cur && cur - t.pos - 1 < FAR && (t.len == 4 ==> cur < t.pos + 1 + NEAR)
    ensures TokenCost(cur, t) <= LITERAL_COST * Length(t)
  {
    if t.Match? {
      var offs := cur - t.pos - 1;
      LogAgainst(offs / 256 + 2);
      if t.len == 4 {
        assert Log2(2) == 1;
        Pow2Of18();
        assert Pow2(10) == 1024;
        LogBelow(offs / 256 + 2, 9);
      } else if t.len == 5 {
        FiveFar(offs);
      } else {
        LogBound(t.len - 2);
      }
    }
  }

  lemma ChosenLast(x: seq<Byte>, ts: seq<Token>, to: nat)
    requires Reaches(x, 1, ts, to) && Chosen(ts, to) && ts != [] && to <= |x| <= FAR
    ensures var t, front := ts[|ts| - 1], ts[..|ts| - 1];
            && 1 + Length(t) <= to && Reaches(x, 1, front, to - Length(t)) && Chosen(front, to - Length(t))
            && (t.Match? ==> t.len >= 4 && t.pos < to - Length(t) && (t.len == 4 ==> to - Length(t) < t.pos + 1 + NEAR))
            && ReachCost(x, 1, ts, to) == ReachCost(x, 1, front, to - Length(t)) + TokenCost(to - Length(t), t)
  {
    hide TokenCost, TokenEvents;
    ReachesLast(x, 1, ts, to);
  }

  lemma {:induction false} ChosenReach(x: seq<Byte>, ts: seq<Token>, to: nat)
    requires Reaches(x, 1, ts, to) && Chosen(ts, to) && to <= |x| <= FAR
    ensures ReachCost(x, 1, ts, to) <= LITERAL_COST * (to - 1)
    decreases |ts|
  {
    hide TokenCost, TokenEvents, Reaches, Chosen, ReachCost, Fits;
    if ts != [] {
      var t, front := ts[|ts| - 1], ts[..|ts| - 1];
      ChosenLast(x, ts, to);
      ChosenReach(x, front, to - Length(t));
      ChosenCost(to - Length(t), t);
    } else {
      NothingReached(x, 1, ts, to);
      NothingCosts(x, 1, ts, to);
    }
  }

  lemma ChosenFits(x: seq<Byte>, ts: seq<Token>, packer: Packer)
    requires |x| > 1 && Reaches(x, 1, ts, |x|) && Parses(x, 1, ts) && |x| <= FAR < NO_MATCH && Picked(packer, x, ts, |x|)
    ensures |PackedBytes(x, ts)| <= |x| + |x| / 8 + 64
  {
    hide PackedBytes, Reaches, ReachCost, Parses, ParseCost, Chosen, Picked;
    PickedChosen(packer, x, ts, |x|);
    ChosenReach(x, ts, |x|);
    NoneLeft(x);
    ReachThenParse(x, 1, ts, |x|, []);
    assert ts + [] == ts;
    PackedFits(x, ts);
  }

  // ---- The levels ----

  /** Up to which size the packed bytes keep to the published bound, at each level. */
  ghost predicate BoundKept(level: int, n: nat) {
    if level <= 4 then n <= FAR else if level <= 7 then Exact(n) else FarFromOverflow(n)
  }

  /** Which of the packers with a table of positions a level uses. */
  function PackerOf(level: int): Packer
    requires 1 <= level <= 4
  {
    if level == 1 then Greedy else if level == 2 then Lazy else Bucketed(if level == 3 then 2 else 4, 16)
  }

  /** How far the searches of the other levels go, and from what length on a match is enough for them. */
  function SearchOf(level: int): (r: (nat, nat))
    requires 5 <= level <= 10
  {
    if level == 5 then (1, 16) else if level == 6 then (8, 32) else if level == 7 then (64, 64)
    else if level == 8 then (16, 96) else if level == 9 then (32, 224) else (UNLIMITED, UNLIMITED)
  }

  /** The tokens are those of the level: chosen one by one, or from the end backwards, or no dearer than others. */
  ghost predicate OfLevel(x: seq<Byte>, level: int, ts: seq<Token>)
    requires |x| < NO_MATCH && 1 <= level <= 10
  {
    && |x| > 1
    && Parses(x, 1, ts)
    && (level <= 4 ==> Picked(PackerOf(level), x, ts, |x|))
    && (5 <= level <= 7 && |x| >= 4 ==> ts == Leparse(x, SearchOf(level).0, SearchOf(level).1))
    && (8 <= level && FarFromOverflow(|x|) ==> CheapestOffered(x, ts, SearchOf(level).0, SearchOf(level).1))
    && (level == 10 && FarFromOverflow(|x|) ==> BlzBtparseMain.Cheapest(x, ts))
  }

  /** Packs x at a level from 1 to 10; other levels are refused. */
  method PackLevel(x: seq<Byte>, level: int) returns (ok: bool, out: seq<Byte>, ghost ts: seq<Token>)
    requires |x| < NO_MATCH
    ensures ok == (1 <= level <= 10)
    ensures ok ==> (|x| > 1 ==> OfLevel(x, level, ts)) && out == PackedBytes(x, ts)
    ensures ok && BoundKept(level, |x|) ==> |out| <= |x| + |x| / 8 + 64
  {
    hide Parses, PackedBytes, BlzBtparseMain.Cheapest, CheapestOffered, Leparse, Picked, Reaches, Exact, FarFromOverflow;
    ok, out, ts := true, [], [];
    if level == 1 {
      var lookup := new nat[LOOKUP_SIZE](_ => 0);
      out, ts := Pack(x, lookup);
    } else if level == 2 {
      var lookup := new nat[LOOKUP_SIZE](_ => 0);
      out, ts := PackLazy(x, lookup);
    } else if level == 3 || level == 4 {
      var bucketSize := if level == 3 then 2 else 4;
      var lookup := new nat[LOOKUP_SIZE * bucketSize](_ => 0);
      out, ts := PackHashBucket(x, lookup, bucketSize, 16);
    } else if level == 5 {
      out, ts := PackBackwards(x, 1, 16);
    } else if level == 6 {
      out, ts := PackBackwards(x, 8, 32);
    } else if level == 7 {
      out, ts := PackBackwards(x, 64, 64);
    } else if level == 8 {
      out, ts := PackBtparse(x, 16, 96);
    } else if level == 9 {
      out, ts := PackBtparse(x, 32, 224);
    } else if level == 10 {
      out, ts := PackBtparse(x, UNLIMITED, UNLIMITED);
      EnoughDepth(|x|);
    } else {
      ok := false;
    }
    if 1 <= level <= 4 && |x| <= FAR {
      if |x| > 1 { ChosenFits(x, ts, PackerOf(level)); } else { ShortFits(x, ts); }
    }
  }

  lemma ShortFits(x: seq<Byte>, ts: seq<Token>)
    requires |x| <= 1
    ensures |PackedBytes(x, ts)| <= |x| + |x| / 8 + 64
  {
  }

  lemma EnoughDepth(n: nat)
    requires n < NO_MATCH
    ensures n <= UNLIMITED
  {
  }

  method PackBackwards(x: seq<Byte>, maxDepth: nat, acceptLen: nat) returns (out: seq<Byte>, ghost ts: seq<Token>)
    requires |x| < NO_MATCH
    ensures (|x| > 1 ==> Parses(x, 1, ts)) && out == PackedBytes(x, ts)
    ensures |x| >= 4 ==> ts == Leparse(x, maxDepth, acceptLen)
    ensures Exact(|x|) ==> |out| <= |x| + |x| / 8 + 64
  {
    var work := new nat[if LOOKUP_SIZE < 2 * |x| then 3 * |x| else |x| + LOOKUP_SIZE](_ => 0);
    out, ts := PackLeparse(x, work, maxDepth, acceptLen);
  }

  /** Packed at any level, the bytes unpack to x: by the checked decoder, and by the unchecked one. */
  method RoundTrip(x: seq<Byte>, level: int, dst: array<Byte>, checked: bool) returns (packed: seq<Byte>, ghost ts: seq<Token>)
    requires |x| <= MAX_SIZE && 1 <= level <= 10 && dst.Length == |x|
    modifies dst
    ensures |x| < NO_MATCH && (|x| > 1 ==> OfLevel(x, level, ts)) && packed == PackedBytes(x, ts)
    ensures Depack(packed, ENTRY, [], |x|) == Some(x) && dst[..] == x
  {
    hide *;
    SizeFits(|x|);
    var ok;
    ok, packed, ts := PackLevel(x, level);
    if |x| > 1 { LevelParses(x, level, ts); }
    DepackPacked(x, ts);
    if checked {
      var n;
      ok, n := DepackSafe(packed, dst, |x|);
    } else {
      var n := DepackFast(packed, dst, |x|);
      assert dst[..|x|] == dst[..];
    }
  }

  lemma LevelParses(x: seq<Byte>, level: int, ts: seq<Token>)
    requires |x| < NO_MATCH && 1 <= level <= 10 && OfLevel(x, level, ts)
    ensures Parses(x, 1, ts)
  {
  }

  lemma SizeFits(n: nat)
    requires n <= MAX_SIZE
    ensures n < NO_MATCH
  {
  }
}

/**
 * Levels 5 to 7 as they run: one array of words, in which costs take the place of chain links
 * already followed, and positions and lengths that of the hash table.
 */
module BlzLeparseShared {
  import opened Permutations
  import opened HeaderBits
  import opened BitStream
  import opened BlzFormat
  import opened BlzTokens
  import opened BlzEncoder
  import opened BlzPack
  import opened BlzCost
  import opened BlzLeparse

  /** The hash of the four bytes at p, in so many bits. */
  function Hash4Bits(x: seq<Byte>, p: nat, bits: nat): (h: nat)
    requires p + 4 <= |x| && bits <= 32
    ensures h < Pow2(bits)
  {
    var val := (x[p] as nat) + 0x100 * (x[p + 1] as nat) + 0x1_0000 * (x[p + 2] as nat) + 0x100_0000 * (x[p + 3] as nat);
    var product := val * 2654435761 % 0x1_0000_0000;
    Pow2Of32();
    ShrBound(product, bits, 32 - bits);
    Shr(product, 32 - bits)
  }

  /** For every position the last one before it with the same hash. */
  ghost predicate HashChain(x: seq<Byte>, bits: nat, chain: seq<nat>, upto: nat) {
    && bits <= 32 && upto <= |chain| && upto + 3 <= |x| && |chain| == |x|
    && forall i :: 0 <= i < upto ==> LastWithHash(x, bits, i, i, chain[i])
  }

  /** p is the last position before i with the hash of position at, if there is one. */
  ghost predicate LastWithHash(x: seq<Byte>, bits: nat, at: nat, i: nat, p: nat)
    requires at + 4 <= |x| && i <= at && bits <= 32
  {
    if p == NO_MATCH then forall j :: 0 <= j < i ==> Hash4Bits(x, j, bits) != Hash4Bits(x, at, bits)
    else p < i && Hash4Bits(x, p, bits) == Hash4Bits(x, at, bits)
         && forall j :: p < j < i ==> Hash4Bits(x, j, bits) != Hash4Bits(x, at, bits)
  }

  /** The last position before i with the hash of position at. */
  function LastBefore(x: seq<Byte>, bits: nat, at: nat, i: nat): (p: nat)
    requires at + 4 <= |x| && i <= at && bits <= 32
    ensures p == NO_MATCH || p < i
  {
    if i == 0 then NO_MATCH
    else if Hash4Bits(x, i - 1, bits) == Hash4Bits(x, at, bits) then i - 1
    else LastBefore(x, bits, at, i - 1)
  }

  lemma {:induction false} LastIsBefore(x: seq<Byte>, bits: nat, at: nat, i: nat, p: nat)
    requires at + 4 <= |x| && i <= at && bits <= 32 && i < NO_MATCH && LastWithHash(x, bits, at, i, p)
    ensures p == LastBefore(x, bits, at, i)
  {
    hide Hash4Bits;
    if i > 0 && Hash4Bits(x, i - 1, bits) != Hash4Bits(x, at, bits) {
      LastIsBefore(x, bits, at, i - 1, p);
    }
  }

  /** The chain of every position that can match. */
  function ChainOf(x: seq<Byte>, bits: nat): (chain: seq<nat>)
    requires |x| >= 4 && bits <= 32
    ensures |chain| == |x| && Chained(chain)
  {
    seq(|x|, i requires 0 <= i < |x| => if 0 < LastMatchPos(|x|) && i <= LastMatchPos(|x|) then LastBefore(x, bits, i, i) else NO_MATCH)
  }

  /** The hash table, at offset n of the work array, after i positions. */
  ghost predicate TableHolds(work: seq<nat>, x: seq<Byte>, bits: nat, n: nat, i: nat) {
    && bits <= 32 && n + Pow2(bits) <= |work| && i + 3 <= |x|
    && forall k :: n <= k < n + Pow2(bits) ==> LastSeen(x, bits, i, k - n, work[k])
  }

  ghost predicate LastSeen(x: seq<Byte>, bits: nat, i: nat, h: nat, p: nat)
    requires i + 3 <= |x| && bits <= 32
  {
    if p == NO_MATCH then forall j :: 0 <= j < i ==> Hash4Bits(x, j, bits) != h
    else p < i && Hash4Bits(x, p, bits) == h && forall j :: p < j < i ==> Hash4Bits(x, j, bits) != h
  }

  lemma TableStep(work: seq<nat>, x: seq<Byte>, bits: nat, n: nat, i: nat, work': seq<nat>)
    requires TableHolds(work, x, bits, n, i) && i + 4 <= |x| && |x| == n && i < NO_MATCH
    requires work' == work[i := work[n + Hash4Bits(x, i, bits)]][n + Hash4Bits(x, i, bits) := i]
    ensures TableHolds(work', x, bits, n, i + 1) && LastWithHash(x, bits, i, i, work'[i])
  {
    hide Hash4Bits;
    var h0 := Hash4Bits(x, i, bits);
    assert LastSeen(x, bits, i, n + h0 - n, work[n + h0]);
    forall k | n <= k < n + Pow2(bits) ensures LastSeen(x, bits, i + 1, k - n, work'[k]) {
      assert LastSeen(x, bits, i, k - n, work[k]);
    }
  }

  /** Fills the first n words with the chains, using the words after them for the table. */
  method BuildChains(work: array<nat>, x: seq<Byte>, bits: nat) returns (ghost chain: seq<nat>)
    requires 4 <= |x| < NO_MATCH && bits <= 32 && |x| + Pow2(bits) <= work.Length
    modifies work
    ensures chain == ChainOf(x, bits)
    ensures LastMatchPos(|x|) > 0 ==> HashChain(x, bits, chain, LastMatchPos(|x|) + 1)
    ensures LastMatchPos(|x|) > 0 ==> forall i :: 0 <= i <= LastMatchPos(|x|) ==> work[i] == chain[i]
  {
    var n, last := |x|, LastMatchPos(|x|);
    chain := seq(n, i => NO_MATCH);
    var size := Pow2(bits);
    var i := 0;
    while i < size
      invariant i <= size && forall k :: n <= k < n + i ==> work[k] == NO_MATCH
    {
      work[n + i] := NO_MATCH;
      i := i + 1;
    }
    if last > 0 {
      hide Hash4Bits, LastSeen, LastWithHash;
      TableEmpty(work[..], x, bits, n);
      hide TableHolds;
      i := 0;
      while i <= last
        invariant i <= last + 1 && TableHolds(work[..], x, bits, n, i)
        invariant |chain| == n && forall k :: i <= k < n ==> chain[k] == NO_MATCH
        invariant forall k :: 0 <= k < i ==> work[k] == chain[k] && LastWithHash(x, bits, k, k, chain[k])
      {
        ghost var was := work[..];
        var hash := Hash4Bits(x, i, bits);
        TableSize(was, x, bits, n, i);
        work[i] := work[n + hash];
        work[n + hash] := i;
        TableStep(was, x, bits, n, i, work[..]);
        chain := chain[i := work[i]];
        i := i + 1;
      }
      ChainIs(x, bits, chain, last);
    }
  }

  lemma TableEmpty(work: seq<nat>, x: seq<Byte>, bits: nat, n: nat)
    requires bits <= 32 && n + Pow2(bits) <= |work| && 3 <= |x|
    requires forall k :: n <= k < n + Pow2(bits) ==> work[k] == NO_MATCH
    ensures TableHolds(work, x, bits, n, 0)
  {
  }

  lemma TableSize(work: seq<nat>, x: seq<Byte>, bits: nat, n: nat, i: nat)
    requires TableHolds(work, x, bits, n, i)
    ensures bits <= 32 && n + Pow2(bits) <= |work|
  {
  }

  lemma ChainIs(x: seq<Byte>, bits: nat, chain: seq<nat>, last: nat)
    requires bits <= 32 && |chain| == |x| < NO_MATCH && last + 4 <= |x| && last == LastMatchPos(|x|) > 0
    requires forall k :: 0 <= k <= last ==> LastWithHash(x, bits, k, k, chain[k])
    requires forall k :: last < k < |x| ==> chain[k] == NO_MATCH
    ensures chain == ChainOf(x, bits)
  {
    hide LastWithHash;
    forall k | 0 <= k < |x| ensures chain[k] == ChainOf(x, bits)[k] {
      if k <= last {
        LastIsBefore(x, bits, k, k, chain[k]);
      }
    }
  }

  // ---- The shared array seen as separate ones ----

  /**
   * Below b the first words still are chain links; from b on they are costs, the last of them on the word
   * that would be the first position. Positions and lengths follow.
   */
  ghost predicate Shares(work: seq<nat>, n: nat, chain: seq<nat>, d: Table, b: nat) {
    && 3 * n <= |work| && |chain| == n && Sized(d, n) && b <= n && n > 0
    && (LastMatchPos(n) > 0 ==> forall i :: 0 <= i < b && i <= LastMatchPos(n) ==> work[i] == chain[i])
    && (forall i :: b <= i <= n ==> work[i] == d.cost[i])
    && forall i :: 1 <= i < n ==> work[n + i] == d.mpos[i] && work[2 * n + i] == d.mlen[i]
  }

  /** Writing a cost, a position and a length below b is entering them. */
  lemma SharesEntered(work: seq<nat>, n: nat, chain: seq<nat>, d: Table, b: nat, cost: nat, pos: nat, len: nat)
    requires Shares(work, n, chain, d, b + 1) && 1 <= b < n
    ensures 3 * n <= |work| && b < |d.cost| && b < |d.mpos| && b < |d.mlen|
    ensures Shares(work[b := cost][n + b := pos][2 * n + b := len], n, chain, Entered(d, b, cost, pos, len), b)
  {
  }

  lemma SharesReentered(work: seq<nat>, n: nat, chain: seq<nat>, d: Table, b: nat, cost: nat, pos: nat, len: nat)
    requires Shares(work, n, chain, d, b) && 1 <= b < n
    ensures 3 * n <= |work| && b < |d.cost| && b < |d.mpos| && b < |d.mlen|
    ensures Shares(work[b := cost][n + b := pos][2 * n + b := len], n, chain, Entered(d, b, cost, pos, len), b)
  {
  }

  lemma SharesAt(work: seq<nat>, n: nat, chain: seq<nat>, d: Table, b: nat, i: nat)
    requires Shares(work, n, chain, d, b) && i <= n
    ensures 3 * n <= |work| && |chain| == n && Sized(d, n) && b <= n && n > 0
    ensures i < b && 0 < LastMatchPos(n) && i <= LastMatchPos(n) ==> work[i] == chain[i]
    ensures b <= i ==> work[i] == d.cost[i]
    ensures 1 <= i < n ==> work[n + i] == d.mpos[i] && work[2 * n + i] == d.mlen[i]
  {
  }

  method EnterAt(work: array<nat>, n: nat, b: nat, cost: nat, pos: nat, len: nat)
    requires 3 * n <= work.Length && 1 <= b < n
    modifies work
    ensures work[..] == old(work[..])[b := cost][n + b := pos][2 * n + b := len]
  {
    work[b] := cost;
    work[n + b] := pos;
    work[2 * n + b] := len;
  }

  /** The cheapest length, from the costs in the array. */
  method FindCheapest(work: array<nat>, x: seq<Byte>, cur: nat, offs: nat, from: nat, len: nat,
                      ghost chain: seq<nat>, ghost d: Table)
    returns (cost: nat, best: nat)
    requires Shares(work[..], |x|, chain, d, cur) && 4 <= from <= len && cur + len <= |x|
    ensures Sized(d, |x|) && (cost, best) == Cheapest(d.cost, cur, offs, from, len, (0, 0))
  {
    cost, best := 0, 0;
    ghost var want := Cheapest(d.cost, cur, offs, from, len, (0, 0));
    hide Shares;
    var i := from;
    while i <= len
      invariant from <= i <= len + 1 && Sized(d, |x|)
      invariant Cheapest(d.cost, cur, offs, i, len, (cost, best)) == want
    {
      SharesAt(work[..], |x|, chain, d, cur, cur + i);
      var here := MatchCost(offs, i) + work[cur + i];
      if best == 0 || here < cost {
        cost, best := here, i;
      }
      i := i + 1;
    }
  }

  /** Carries the match at cur to the left. */
  method ExtendLeft(work: array<nat>, x: seq<Byte>, cur0: nat, pos0: nat, len0: nat, ghost chain: seq<nat>, ghost d0: Table)
    returns (cur: nat, ghost d: Table)
    requires Shares(work[..], |x|, chain, d0, cur0) && pos0 < cur0 && cur0 + len0 <= |x| && len0 >= 4 && Sized(d0, |x|)
    modifies work
    ensures (d, cur) == Extend(x, d0, cur0, pos0, len0) && Shares(work[..], |x|, chain, d, cur) && 0 < cur <= cur0
  {
    var pos: nat, len: nat := pos0, len0;
    cur, d := cur0, d0;
    hide Shares, MatchCost;
    while pos > 0 && x[pos - 1] == x[cur - 1]
      invariant pos < cur <= cur0 && cur + len == cur0 + len0 && len >= 4 && Sized(d, |x|)
      invariant Shares(work[..], |x|, chain, d, cur)
      invariant Extend(x, d, cur, pos, len) == Extend(x, d0, cur0, pos0, len0)
    {
      SharesAt(work[..], |x|, chain, d, cur, cur + len);
      cur := cur - 1;
      pos := pos - 1;
      len := len + 1;
      var cost := (MatchCost(cur - pos - 1, len) + work[cur + len]) % BlzLeparse.WORD;
      SharesEntered(work[..], |x|, chain, d, cur, cost, pos, len);
      EnterAt(work, |x|, cur, cost, pos, len);
      d := Entered(d, cur, cost, pos, len);
    }
  }

  /** The length of a match, if it has a chance to be longer than maxLen. */
  method LongerLength(x: seq<Byte>, pos: nat, cur: nat, maxLen: nat) returns (len: nat)
    requires pos < cur < |x|
    ensures len == if maxLen < |x| - cur && x[pos + maxLen] == x[cur + maxLen] then Common(x, pos, cur, 0, |x| - cur) else 0
  {
    len := 0;
    if maxLen < |x| - cur && x[pos + maxLen] == x[cur + maxLen] {
      len := MatchLength(x, pos, cur, 0, |x| - cur);
      CommonIs(x, pos, cur, 0, |x| - cur, len);
    }
  }

  /** Tries the longer lengths of a match; says whether cur got cheaper. */
  method TryMatch(work: array<nat>, x: seq<Byte>, cur: nat, pos: nat, maxLen: nat, len: nat, ghost chain: seq<nat>, ghost d: Table)
    returns (cheaper: bool, ghost d': Table)
    requires Shares(work[..], |x|, chain, d, cur) && pos < cur < |x| && 3 <= maxLen < len && cur + len <= |x| && Sized(d, |x|)
    modifies work
    ensures d' == Taken(x, d, cur, pos, maxLen, len) && Shares(work[..], |x|, chain, d', cur) && Sized(d', |x|)
    ensures cheaper == (d'.cost[cur] < d.cost[cur])
  {
    hide Shares, MatchCost;
    var cost, best := FindCheapest(work, x, cur, cur - pos - 1, maxLen + 1, len, chain, d);
    SharesAt(work[..], |x|, chain, d, cur, cur);
    cheaper, d' := cost < work[cur], d;
    if cheaper {
      SharesReentered(work[..], |x|, chain, d, cur, cost, pos, best);
      EnterAt(work, |x|, cur, cost, pos, best);
      d' := Entered(d, cur, cost, pos, best);
    }
  }

  /** Follows the chain from cur. */
  method SearchChain(work: array<nat>, x: seq<Byte>, cur0: nat, pos0: nat, maxDepth: nat, acceptLen: nat,
                     ghost chain: seq<nat>, ghost d0: Table)
    returns (cur: nat, ghost d: Table)
    requires Shares(work[..], |x|, chain, d0, cur0) && 0 < cur0 <= LastMatchPos(|x|) && Sized(d0, |x|)
    requires |chain| == |x| && Chained(chain) && (pos0 == NO_MATCH || pos0 < cur0)
    modifies work
    ensures (d, cur) == Search(x, chain, d0, cur0, pos0, 3, maxDepth, acceptLen)
    ensures Shares(work[..], |x|, chain, d, cur) && 0 < cur <= cur0
  {
    hide Shares, Taken, Extend;
    cur, d := cur0, d0;
    var pos: nat, maxLen: nat, left: nat := pos0, 3, maxDepth;
    var limit := |x| - cur;
    while pos != NO_MATCH && left != 0
      invariant Shares(work[..], |x|, chain, d, cur) && Sized(d, |x|) && cur == cur0 && maxLen >= 3
      invariant pos == NO_MATCH || pos < cur
      invariant Search(x, chain, d, cur, pos, maxLen, left, acceptLen) == Search(x, chain, d0, cur0, pos0, 3, maxDepth, acceptLen)
      decreases left
    {
      var len := LongerLength(x, pos, cur, maxLen);
      var was := maxLen;
      if len > maxLen {
        ghost var before := d;
        TakenLength(x, d, cur, pos, maxLen, len);
        var cheaper;
        cheaper, d := TryMatch(work, x, cur, pos, maxLen, len, chain, d);
        maxLen := len;
        if cheaper && pos > 0 && x[pos - 1] == x[cur - 1] {
          SharesAt(work[..], |x|, chain, d, cur, cur);
          cur, d := ExtendLeft(work, x, cur, pos, work[2 * |x| + cur], chain, d);
          return;
        }
      }
      if len >= acceptLen || len == limit { return; }
      SharesAt(work[..], |x|, chain, d, cur, pos);
      pos := work[pos];
      left := left - 1;
    }
  }

  /** Works out all positions from the last that can match down to the first. */
  method SweepAll(work: array<nat>, x: seq<Byte>, maxDepth: nat, acceptLen: nat, ghost chain: seq<nat>, ghost d0: Table)
    returns (ghost d: Table)
    requires |x| >= 4 && |chain| == |x| && Chained(chain) && Sized(d0, |x|)
    requires Shares(work[..], |x|, chain, d0, LastMatchPos(|x|) + 1)
    modifies work
    ensures d == Sweep(x, chain, d0, LastMatchPos(|x|), maxDepth, acceptLen)
    ensures Shares(work[..], |x|, chain, d, 1)
  {
    hide Shares, Search;
    var n := |x|;
    var cur := LastMatchPos(n);
    d := d0;
    while cur > 0
      invariant 0 <= cur <= LastMatchPos(n) && Sized(d, n) && Shares(work[..], n, chain, d, cur + 1)
      invariant Sweep(x, chain, d, cur, maxDepth, acceptLen) == Sweep(x, chain, d0, LastMatchPos(n), maxDepth, acceptLen)
    {
      SharesAt(work[..], n, chain, d, cur + 1, cur);
      SharesAt(work[..], n, chain, d, cur + 1, cur + 1);
      var pos := work[cur];
      SharesLiteral(work[..], n, chain, d, cur);
      work[cur] := (work[cur + 1] + LITERAL_COST) % BlzLeparse.WORD;
      work[2 * n + cur] := 1;
      d := Entered(d, cur, (d.cost[cur + 1] + LITERAL_COST) % BlzLeparse.WORD, d.mpos[cur], 1);
      cur, d := SearchChain(work, x, cur, pos, maxDepth, acceptLen, chain, d);
      cur := cur - 1;
    }
  }

  lemma SharesLiteral(work: seq<nat>, n: nat, chain: seq<nat>, d: Table, b: nat)
    requires Shares(work, n, chain, d, b + 1) && 1 <= b < n
    ensures 3 * n <= |work| && Sized(d, n)
    ensures Shares(work[b := (work[b + 1] + LITERAL_COST) % BlzLeparse.WORD][2 * n + b := 1], n, chain,
                   Entered(d, b, (d.cost[b + 1] + LITERAL_COST) % BlzLeparse.WORD, d.mpos[b], 1), b)
  {
  }

  /** The last three positions are literals; costs and lengths of the rest are still to come. */
  ghost function FirstTable(work: seq<nat>, n: nat): (d: Table)
    requires 4 <= n && 3 * n <= |work|
    ensures Sized(d, n)
  {
    Table(seq(n + 1, i => if i <= n then LITERAL_COST * (n - i) else 0),
          seq(n + 1, i requires 0 <= i <= n => if 1 <= i < n then work[n + i] else 0),
          seq(n + 1, i requires 0 <= i <= n => if 1 <= i < n then work[2 * n + i] else 0))
  }

  lemma FirstSettled(work: seq<nat>, x: seq<Byte>, chain: seq<nat>)
    requires 4 <= |x| && 3 * |x| <= |work| && |chain| == |x|
    requires LastMatchPos(|x|) > 0 ==> forall i :: 0 <= i <= LastMatchPos(|x|) ==> work[i] == chain[i]
    requires work[3 * |x| - 3] == 1 && work[3 * |x| - 2] == 1 && work[3 * |x| - 1] == 1
    requires forall i :: |x| - 3 <= i <= |x| ==> work[i] == LITERAL_COST * (|x| - i)
    ensures LastMatchPos(|x|) + 1 <= |x|
    ensures LastMatchPos(|x|) > 0 ==> Shares(work, |x|, chain, FirstTable(work, |x|), LastMatchPos(|x|) + 1)
    ensures Settled(x, FirstTable(work, |x|), |x| - 3)
  {
    var d, n := FirstTable(work, |x|), |x|;
    forall k | n - 3 <= k < n ensures EntryOk(x, d, k) {
      assert k == n - 3 || k == n - 2 || k == n - 1;
      assert d.mlen[k] == work[2 * n + k] == 1;
    }
  }

  /** Costs and lengths of the end of the input. */
  method EnterEnd(work: array<nat>, n: nat)
    requires 4 <= n && 3 * n <= work.Length
    modifies work
    ensures work[3 * n - 3] == 1 && work[3 * n - 2] == 1 && work[3 * n - 1] == 1
    ensures forall i :: n - 3 <= i <= n ==> work[i] == LITERAL_COST * (n - i)
    ensures forall i :: 0 <= i < n - 3 ==> work[i] == old(work[i])
  {
    work[2 * n + (n - 3)] := 1;
    work[2 * n + (n - 2)] := 1;
    work[2 * n + (n - 1)] := 1;
    work[n - 3] := 27;
    work[n - 2] := 18;
    work[n - 1] := 9;
    work[n] := 0;
  }

  /** The bits of hash the work array has room for. */
  function HashBits(n: nat): (bits: nat) {
    if 2 * n < LOOKUP_SIZE then HASH_BITS else Log2(n)
  }

  lemma HashBitsFit(n: nat)
    requires 4 <= n < NO_MATCH
    ensures HashBits(n) <= 32 && Pow2(HashBits(n)) <= if LOOKUP_SIZE < 2 * n then 2 * n else LOOKUP_SIZE
  {
    if 2 * n < LOOKUP_SIZE {
      assert Pow2(8) == 256;
      assert Pow2(16) == 65536;
      assert Pow2(17) == 131072;
    } else {
      PowLog(n);
      LogBelow32(n);
    }
  }

  lemma {:induction false} PowLog(n: nat)
    requires n >= 1
    ensures Pow2(Log2(n)) <= n
    decreases n
  {
    if n >= 2 {
      PowLog(n / 2);
    }
  }

  lemma LogBelow32(n: nat)
    requires n < 0x1_0000_0000
    ensures Log2(n) <= 31
  {
    LogBelow(n, 31);
    Pow2Of32();
  }

  /** Writes the tokens the table names, from the first on. */
  method WritePath(bs: BlzState, work: array<nat>, x: seq<Byte>, ghost chain: seq<nat>, ghost d: Table) returns (ghost ts: seq<Token>)
    requires bs.Valid() && |x| >= 4 && bs.packed == Start(x[0]) && Shares(work[..], |x|, chain, d, 1) && Settled(x, d, 1)
    modifies bs
    ensures bs.Valid() && Written(bs.packed, x, ts, |x|) && ts == Path(x, d, 1)
  {
    WrittenStart(x);
    ts := [];
    var n := |x|;
    var i: nat := 1;
    hide Written, BlzState.Valid, Shares, Settled, Path, Start;
    assert [] + Path(x, d, 1) == Path(x, d, 1);
    while i < n
      invariant 1 <= i <= n && bs.Valid() && Written(bs.packed, x, ts, i)
      invariant ts + Path(x, d, i) == Path(x, d, 1)
      decreases n - i
    {
      i, ts := WriteEntry(bs, work, x, i, ts, chain, d);
    }
    PathEnd(x, d);
    assert ts + [] == ts;
  }

  /** Writes the token at i and moves past it. */
  method WriteEntry(bs: BlzState, work: array<nat>, x: seq<Byte>, i: nat, ghost ts: seq<Token>, ghost chain: seq<nat>, ghost d: Table)
    returns (next: nat, ghost ts': seq<Token>)
    requires bs.Valid() && 1 <= i < |x| && Shares(work[..], |x|, chain, d, 1) && Settled(x, d, 1) && Written(bs.packed, x, ts, i)
    modifies bs
    ensures bs.Valid() && i < next <= |x| && Written(bs.packed, x, ts', next)
    ensures ts' + Path(x, d, next) == ts + Path(x, d, i)
  {
    hide Written, BlzState.Valid, Shares, Settled, Path;
    SharesAt(work[..], |x|, chain, d, 1, i);
    PathStep(x, d, i, ts);
    var len := work[2 * |x| + i];
    if len == 1 {
      ts' := WriteLiteral(bs, x, i, ts);
    } else {
      ts' := WriteMatch(bs, x, i, work[|x| + i], len, ts);
    }
    next := i + len;
  }

  lemma PathStep(x: seq<Byte>, d: Table, i: nat, ts: seq<Token>)
    requires Settled(x, d, 1) && 1 <= i < |x|
    ensures Sized(d, |x|) && 1 <= d.mlen[i] && i + d.mlen[i] <= |x| && (d.mlen[i] != 1 ==> TrueMatch(x, i, d.mpos[i], d.mlen[i]))
    ensures ts + Path(x, d, i)
            == ts + [if d.mlen[i] == 1 then Literal else Match(d.mpos[i], d.mlen[i])] + Path(x, d, i + d.mlen[i])
  {
    assert EntryOk(x, d, i);
  }

  lemma PathEnd(x: seq<Byte>, d: Table)
    requires Settled(x, d, 1) && |x| >= 1
    ensures Path(x, d, |x|) == []
  {
  }

  /** The table as it is settled in the end, and its tokens. */
  lemma TableFinal(x: seq<Byte>, work: seq<nat>, chain: seq<nat>, maxDepth: nat, acceptLen: nat)
    requires 4 < |x| && 3 * |x| <= |work| && |chain| == |x| && Chained(chain)
    requires Settled(x, FirstTable(work, |x|), |x| - 3)
    ensures Settled(x, Sweep(x, chain, FirstTable(work, |x|), LastMatchPos(|x|), maxDepth, acceptLen), 1)
  {
    SweepSettles(x, chain, FirstTable(work, |x|), LastMatchPos(|x|), maxDepth, acceptLen);
  }

  lemma PathFits(x: seq<Byte>, d: Table)
    requires Settled(x, d, 1) && |x| >= 4
    ensures Parses(x, 1, Path(x, d, 1))
    ensures Exact(|x|) ==> ParseCost(x, 1, Path(x, d, 1)) == d.cost[1] <= LITERAL_COST * (|x| - 1)
    ensures Exact(|x|) ==> |PackedBytes(x, Path(x, d, 1))| <= |x| + |x| / 8 + 64
  {
    assert EntryOk(x, d, 1);
    PathParses(x, d, 1);
    if Exact(|x|) {
      PackedFits(x, Path(x, d, 1));
    }
  }

  /** The table before the sweep: nine bits a byte, and literals at the end. */
  function Blank(n: nat): (d: Table)
    requires 4 <= n
    ensures Sized(d, n)
  {
    Table(seq(n + 1, i => if i <= n then LITERAL_COST * (n - i) else 0), seq(n + 1, i => 0), seq(n + 1, i => if n - 3 <= i < n then 1 else 0))
  }

  lemma BlankSettled(x: seq<Byte>)
    requires |x| >= 4
    ensures Settled(x, Blank(|x|), |x| - 3) && LastMatchPos(|x|) + 1 <= |x|
  {
    var d, n := Blank(|x|), |x|;
    forall k | n - 3 <= k < n ensures EntryOk(x, d, k) {
      assert k == n - 3 || k == n - 2 || k == n - 1;
    }
  }

  lemma SweptSettled(x: seq<Byte>, maxDepth: nat, acceptLen: nat)
    requires 4 <= |x| < NO_MATCH
    ensures HashBits(|x|) <= 32 && LastMatchPos(|x|) < |x|
    ensures Settled(x, Sweep(x, ChainOf(x, HashBits(|x|)), Blank(|x|), LastMatchPos(|x|), maxDepth, acceptLen), 1)
  {
    hide Settled, Sweep, ChainOf;
    HashBitsFit(|x|);
    BlankSettled(x);
    assert LastMatchPos(|x|) + 1 == |x| - 3;
    SweepSettles(x, ChainOf(x, HashBits(|x|)), Blank(|x|), LastMatchPos(|x|), maxDepth, acceptLen);
  }

  /** The parse over separate arrays: the path of the swept table. */
  ghost function Leparse(x: seq<Byte>, maxDepth: nat, acceptLen: nat): seq<Token>
    requires 4 <= |x| < NO_MATCH
  {
    SweptSettled(x, maxDepth, acceptLen);
    Path(x, Sweep(x, ChainOf(x, HashBits(|x|)), Blank(|x|), LastMatchPos(|x|), maxDepth, acceptLen), 1)
  }

  /** What the hash table left in the array makes no difference. */
  lemma LeftoversIgnored(x: seq<Byte>, work: seq<nat>, d: Table, maxDepth: nat, acceptLen: nat)
    requires 4 <= |x| < NO_MATCH && 3 * |x| <= |work| && HashBits(|x|) <= 32 && LastMatchPos(|x|) < |x|
    requires work[3 * |x| - 3] == 1 && work[3 * |x| - 2] == 1 && work[3 * |x| - 1] == 1
    requires d == Sweep(x, ChainOf(x, HashBits(|x|)), FirstTable(work, |x|), LastMatchPos(|x|), maxDepth, acceptLen) && Settled(x, d, 1)
    ensures Path(x, d, 1) == Leparse(x, maxDepth, acceptLen)
  {
    hide Settled, Sweep, ChainOf, Path;
    SweptSettled(x, maxDepth, acceptLen);
    FirstIsBlank(work, |x|);
    var chain, blank := ChainOf(x, HashBits(|x|)), Blank(|x|);
    SweepSame(x, chain, FirstTable(work, |x|), blank, LastMatchPos(|x|), maxDepth, acceptLen);
    PathSame(x, d, Sweep(x, chain, blank, LastMatchPos(|x|), maxDepth, acceptLen), 1);
  }

  lemma FirstIsBlank(work: seq<nat>, n: nat)
    requires 4 <= n && 3 * n <= |work| && work[3 * n - 3] == 1 && work[3 * n - 2] == 1 && work[3 * n - 1] == 1
    ensures SameFrom(FirstTable(work, n), Blank(n), n, LastMatchPos(n) + 1)
  {
    var d, e := FirstTable(work, n), Blank(n);
    forall k | n - 3 <= k < n ensures SameEntry(d, e, n, k) {
      assert k == n - 3 || k == n - 2 || k == n - 1;
      assert d.mlen[k] == work[2 * n + k] == 1;
    }
  }

  /** Literals only, for an input too short to match. */
  method PackShort(x: seq<Byte>) returns (out: seq<Byte>, ghost ts: seq<Token>)
    requires 1 < |x| < 4
    ensures Parses(x, 1, ts) && out == PackedBytes(x, ts) && ParseCost(x, 1, ts) == LITERAL_COST * (|x| - 1)
  {
    var bs := new BlzState(x[0]);
    WrittenStart(x);
    ts := WriteRest(bs, x, 1, []);
    WrittenAll(bs.packed, x, ts);
    ShortCost(x, 1, ts);
    out := bs.Finalize();
  }

  lemma {:induction false} ShortCost(x: seq<Byte>, cur: nat, ts: seq<Token>)
    requires Parses(x, cur, ts) && |x| < 4 && cur <= |x|
    ensures ParseCost(x, cur, ts) == LITERAL_COST * (|x| - cur)
    decreases |ts|
  {
    if ts != [] {
      ShortCost(x, cur + Length(ts[0]), ts[1..]);
    }
  }

  /**
   * Packs x by the backwards parse. On the shared array the outcome is that of the parse over separate
   * arrays. While costs fit a word, the parse takes at most nine bits a byte, so that the result fits the
   * published bound.
   */
  method PackLeparse(x: seq<Byte>, work: array<nat>, maxDepth: nat, acceptLen: nat) returns (out: seq<Byte>, ghost ts: seq<Token>)
    requires |x| < NO_MATCH
    requires work.Length == if LOOKUP_SIZE < 2 * |x| then 3 * |x| else |x| + LOOKUP_SIZE
    modifies work
    ensures |x| > 1 ==> Parses(x, 1, ts)
    ensures out == PackedBytes(x, ts)
    ensures |x| > 1 && Exact(|x|) ==> ParseCost(x, 1, ts) <= LITERAL_COST * (|x| - 1)
    ensures Exact(|x|) ==> |out| <= |x| + |x| / 8 + 64
    ensures |x| >= 4 ==> ts == Leparse(x, maxDepth, acceptLen)
  {
    ts := [];
    if |x| == 0 { return [], ts; }
    if |x| == 1 { return [x[0]], ts; }
    if |x| < 4 {
      out, ts := PackShort(x);
      PackedFits(x, ts);
      return;
    }
    out, ts := PackLong(x, work, maxDepth, acceptLen);
  }

  method PackLong(x: seq<Byte>, work: array<nat>, maxDepth: nat, acceptLen: nat) returns (out: seq<Byte>, ghost ts: seq<Token>)
    requires 4 <= |x| < NO_MATCH
    requires work.Length == if LOOKUP_SIZE < 2 * |x| then 3 * |x| else |x| + LOOKUP_SIZE
    modifies work
    ensures Parses(x, 1, ts) && out == PackedBytes(x, ts) && ts == Leparse(x, maxDepth, acceptLen)
    ensures Exact(|x|) ==> ParseCost(x, 1, ts) <= LITERAL_COST * (|x| - 1) && |out| <= |x| + |x| / 8 + 64
  {
    hide Shares, Settled, Sweep, Path, Start, BlzState.Valid, Written, HashChain, FirstTable, MatchCost, Parses, PackedBytes, ParseCost,
      ChainOf, Leparse, HashBits;
    var n := |x|;
    HashBitsFit(n);
    ghost var chain := BuildChains(work, x, HashBits(n));
    EnterEnd(work, n);
    FirstSettled(work[..], x, chain);
    ghost var first := work[..];
    ghost var d := ShareAll(work, x, maxDepth, acceptLen, chain, FirstTable(first, n));
    LeftoversIgnored(x, first, d, maxDepth, acceptLen);
    var bs := new BlzState(x[0]);
    ts := WritePath(bs, work, x, chain, d);
    PathFits(x, d);
    WrittenAll(bs.packed, x, ts);
    out := bs.Finalize();
  }

  /** The sweep, when there is a position that can match; four bytes have none. */
  method ShareAll(work: array<nat>, x: seq<Byte>, maxDepth: nat, acceptLen: nat, ghost chain: seq<nat>, ghost d0: Table)
    returns (ghost d: Table)
    requires |x| >= 4 && |chain| == |x| && Chained(chain) && Sized(d0, |x|) && 3 * |x| <= work.Length
    requires Settled(x, d0, |x| - 3) && d0 == FirstTable(work[..], |x|)
    requires LastMatchPos(|x|) > 0 ==> Shares(work[..], |x|, chain, d0, LastMatchPos(|x|) + 1)
    requires forall i :: |x| - 3 <= i <= |x| ==> work[i] == LITERAL_COST * (|x| - i)
    modifies work
    ensures Shares(work[..], |x|, chain, d, 1) && Settled(x, d, 1)
    ensures LastMatchPos(|x|) < |x| && d == Sweep(x, chain, d0, LastMatchPos(|x|), maxDepth, acceptLen)
  {
    if |x| == 4 {
      ShortShares(work[..], x, chain);
      SweepOver(x, chain, d0, maxDepth, acceptLen);
      return d0;
    }
    TableFinal(x, work[..], chain, maxDepth, acceptLen);
    d := SweepAll(work, x, maxDepth, acceptLen, chain, d0);
  }

  lemma ShortShares(work: seq<nat>, x: seq<Byte>, chain: seq<nat>)
    requires |x| == 4 && |chain| == 4 && 12 <= |work| && forall i :: 1 <= i <= 4 ==> work[i] == LITERAL_COST * (4 - i)
    ensures Shares(work, 4, chain, FirstTable(work, 4), 1)
  {
  }
}

/** What levels 1 to 4 choose at every position, and what that is worth. */
module BlzChoice {
  import opened Permutations
  import opened BlzTokens
  import opened BlzPack

  // ---- Earlier positions ----

  /** The k-th last position before a place that has this hash; the last one is the 0-th. */
  function Recent(x: seq<Byte>, h: nat, before: nat, k: nat): (p: nat)
    requires before + 3 <= |x|
    ensures p == NO_MATCH || p < before
  {
    if before == 0 then NO_MATCH
    else if Hash4(x, before - 1) != h then Recent(x, h, before - 1, k)
    else if k == 0 then before - 1
    else Recent(x, h, before - 1, k - 1)
  }

  /** How many positions from p to a place have this hash. */
  function HowMany(x: seq<Byte>, h: nat, p: nat, before: nat): nat
    requires p <= before && before + 3 <= |x|
    decreases before - p
  {
    if p == before then 0 else HowMany(x, h, p, before - 1) + if Hash4(x, before - 1) == h then 1 else 0
  }

  /** The k-th last position has the hash and k positions with it behind it; there is none if fewer than k + 1 have it. */
  lemma {:induction false} RecentIs(x: seq<Byte>, h: nat, before: nat, k: nat)
    requires before + 3 <= |x| && before < NO_MATCH
    ensures var p := Recent(x, h, before, k);
            if p == NO_MATCH then HowMany(x, h, 0, before) <= k
            else p < before && Hash4(x, p) == h && HowMany(x, h, p + 1, before) == k
    decreases before
  {
    hide Hash4;
    if before > 0 {
      if Hash4(x, before - 1) != h {
        RecentIs(x, h, before - 1, k);
      } else if k > 0 {
        RecentIs(x, h, before - 1, k - 1);
      }
    }
  }

  /** p is the last position before cur with the hash of cur. */
  ghost predicate LastAlike(x: seq<Byte>, cur: nat, p: nat) {
    p < cur && cur + 4 <= |x| && Hash4(x, p) == Hash4(x, cur) && forall j :: p < j < cur ==> Hash4(x, j) != Hash4(x, cur)
  }

  ghost predicate NoneAlike(x: seq<Byte>, cur: nat) {
    cur + 4 <= |x| && forall j :: 0 <= j < cur ==> Hash4(x, j) != Hash4(x, cur)
  }

  lemma {:induction false} RecentLast(x: seq<Byte>, cur: nat, p: nat, before: nat)
    requires LastAlike(x, cur, p) && p < before <= cur
    ensures Recent(x, Hash4(x, cur), before, 0) == p
    decreases before
  {
    hide Hash4;
    if before - 1 > p {
      RecentLast(x, cur, p, before - 1);
    }
  }

  lemma {:induction false} RecentNone(x: seq<Byte>, cur: nat, before: nat)
    requires NoneAlike(x, cur) && before <= cur
    ensures Recent(x, Hash4(x, cur), before, 0) == NO_MATCH
  {
    hide Hash4;
    if before > 0 {
      RecentNone(x, cur, before - 1);
    }
  }

  /** Every entry is the last position so far with its hash. */
  ghost predicate LookupHolds(lookup: seq<nat>, x: seq<Byte>, bound: nat) {
    |lookup| == LOOKUP_SIZE && bound + 3 <= |x| && forall h :: 0 <= h < LOOKUP_SIZE ==> lookup[h] == Recent(x, h, bound, 0)
  }

  lemma LookupEmpty(lookup: seq<nat>, x: seq<Byte>)
    requires |lookup| == LOOKUP_SIZE && 3 <= |x| && forall k :: 0 <= k < |lookup| ==> lookup[k] == NO_MATCH
    ensures LookupHolds(lookup, x, 0)
  {
  }

  lemma LookupNext(lookup: seq<nat>, x: seq<Byte>, pos: nat)
    requires LookupHolds(lookup, x, pos) && pos + 4 <= |x|
    ensures LookupHolds(lookup[Hash4(x, pos) := pos], x, pos + 1)
  {
    hide Hash4;
  }

  lemma LookupAt(lookup: seq<nat>, x: seq<Byte>, cur: nat)
    requires LookupHolds(lookup, x, cur) && cur + 4 <= |x|
    ensures |lookup| == LOOKUP_SIZE && lookup[Hash4(x, cur)] == Recent(x, Hash4(x, cur), cur, 0)
  {
    hide Hash4;
  }

  // ---- Weighing matches ----

  const LONG := 0x1_0000_0000_0000_0000

  /** cur - pos - 1 in 64 bits, which wraps round for the empty position. */
  function Offset(cur: nat, pos: nat): nat {
    if pos < cur then cur - pos - 1 else (LONG + cur as int - pos as int - 1) % LONG
  }

  /** Whether a match at cur looks better than another there. */
  function MatchBetter(cur: nat, newPos: nat, newLen: nat, pos: nat, len: nat): bool {
    newLen > len + 1 || (newLen >= len + 1 && Offset(cur, newPos) / 8 <= Offset(cur, pos))
  }

  /** Whether a match at the next position looks better than one at cur. */
  function NextMatchBetter(cur: nat, newPos: nat, newLen: nat, pos: nat, len: nat): bool {
    var offs, newOffs := Offset(cur, pos), Offset(cur + 1, newPos);
    (newLen > len + 1 && newOffs / 8 < offs) || (newLen > len && newOffs < offs) || (newLen >= len && newOffs < offs / 4)
  }

  /** A match of cur, or none worth writing. */
  ghost predicate Usable(x: seq<Byte>, cur: nat, pos: nat, len: nat) {
    len >= 4 ==> pos < cur && Agree(x, pos, cur, len)
  }

  /** A match at the next position that reaches one byte back is a match at cur. */
  lemma ExtendsBack(x: seq<Byte>, cur: nat, pos: nat, len: nat)
    requires 0 < pos <= cur && Agree(x, pos, cur + 1, len) && cur < |x| && x[pos - 1] == x[cur]
    ensures Agree(x, pos - 1, cur, len + 1)
  {
    assert x[pos - 1..pos + len] == [x[pos - 1]] + x[pos..pos + len];
    assert x[cur..cur + 1 + len] == [x[cur]] + x[cur + 1..cur + 1 + len];
  }

  /**
   * Weighs a match at the next position against the one at cur: it may extend back and replace it, or
   * be good enough for cur to become a literal.
   */
  function Weigh(x: seq<Byte>, cur: nat, pos: nat, len: nat, nextPos: nat, nextLen: nat): (r: (nat, nat))
    requires cur < |x| && len > 3 && Usable(x, cur, pos, len)
    requires nextLen >= len ==> nextPos <= cur && Agree(x, nextPos, cur + 1, nextLen)
    ensures Usable(x, cur, r.0, r.1) && (r.1 == 0 || r.1 >= len)
  {
    if nextLen < len then (pos, len)
    else if nextPos > 0 && x[nextPos - 1] == x[cur] then
      ExtendsBack(x, cur, nextPos, nextLen);
      if MatchBetter(cur, nextPos - 1, nextLen + 1, pos, len) then (nextPos - 1, nextLen + 1) else (pos, len)
    else if NextMatchBetter(cur, nextPos, nextLen, pos, len) then (pos, 0)
    else (pos, len)
  }

  /** All that agrees at two positions. */
  function Longest(x: seq<Byte>, pos: nat, cur: nat): (len: nat)
    requires pos < cur <= |x|
    ensures cur + len <= |x| && Agree(x, pos, cur, len) && (cur + len < |x| ==> x[pos + len] != x[cur + len])
  {
    CommonAgrees(x, pos, cur, 0, |x| - cur);
    Common(x, pos, cur, 0, |x| - cur)
  }

  /** The match of the next position, if its last byte gives it a chance to be better. */
  function NextLen(x: seq<Byte>, cur: nat, nextPos: nat, len: nat): (nextLen: nat)
    requires len > 3 && nextPos <= cur && cur + 1 < |x|
    ensures nextLen >= len ==> Agree(x, nextPos, cur + 1, nextLen)
  {
    if len - 1 < |x| - (cur + 1) && x[nextPos + len - 1] == x[cur + len] then Longest(x, nextPos, cur + 1) else 0
  }

  // ---- The choice at one position ----

  /** Level 1, level 2, and levels 3 and 4 with so many positions to a hash. */
  datatype Packer = Greedy | Lazy | Bucketed(size: nat, acceptLen: nat)

  /** The match with the last position of cur's hash. */
  function Nearest(x: seq<Byte>, cur: nat): (r: (nat, nat))
    requires cur + 4 <= |x|
    ensures Usable(x, cur, r.0, r.1) && (r.0 == NO_MATCH ==> r.1 == 0)
  {
    var pos := Recent(x, Hash4(x, cur), cur, 0);
    if pos == NO_MATCH then (NO_MATCH, 0) else (pos, Longest(x, pos, cur))
  }

  /** Level 2: the match of the next position is weighed, unless it is the same one, one further on. */
  function LazyMatch(x: seq<Byte>, cur: nat): (r: (nat, nat))
    requires cur + 4 <= |x| < NO_MATCH
    ensures Usable(x, cur, r.0, r.1)
  {
    var m := Nearest(x, cur);
    if m.1 <= 3 || cur >= LastMatchPos(|x|) then m
    else
      var next := Recent(x, Hash4(x, cur + 1), cur + 1, 0);
      if next == NO_MATCH || next == m.0 + 1 then m
      else Weigh(x, cur, m.0, m.1, next, NextLen(x, cur, next, m.1))
  }

  /** The better of a match and that with pos, which is only looked at if it may be longer. */
  function Better(x: seq<Byte>, cur: nat, pos: nat, best: (nat, nat)): (r: (nat, nat))
    requires pos < cur <= |x|
    ensures Usable(x, cur, best.0, best.1) ==> Usable(x, cur, r.0, r.1)
  {
    var len := if best.1 < |x| - cur && x[pos + best.1] == x[cur + best.1] then Longest(x, pos, cur) else 0;
    if MatchBetter(cur, pos, len, best.0, best.1) then (pos, len) else best
  }

  /** Levels 3 and 4: the positions of cur's hash from the k-th last on are looked at, until a match is long enough. */
  function BestOf(x: seq<Byte>, cur: nat, size: nat, acceptLen: nat, k: nat, best: (nat, nat)): (r: (nat, nat))
    requires cur + 4 <= |x| < NO_MATCH && k <= size && Usable(x, cur, best.0, best.1)
    ensures Usable(x, cur, r.0, r.1)
    decreases size - k
  {
    var pos := if k < size then Recent(x, Hash4(x, cur), cur, k) else NO_MATCH;
    if pos == NO_MATCH then best
    else
      var best' := Better(x, cur, pos, best);
      if best' != best && best'.1 >= acceptLen then best' else BestOf(x, cur, size, acceptLen, k + 1, best')
  }

  /** The positions of the next one's hash are weighed in turn, until one of them makes cur a literal. */
  function LookOver(x: seq<Byte>, cur: nat, size: nat, k: nat, best: (nat, nat)): (r: (nat, nat))
    requires cur + 5 <= |x| < NO_MATCH && k <= size && best.1 > 3 && Usable(x, cur, best.0, best.1)
    ensures Usable(x, cur, r.0, r.1) && (r.1 == 0 || r.1 >= best.1)
    decreases size - k
  {
    var next := if k < size then Recent(x, Hash4(x, cur + 1), cur + 1, k) else NO_MATCH;
    if next == NO_MATCH then best
    else
      var best' := Weigh(x, cur, best.0, best.1, next, NextLen(x, cur, next, best.1));
      if best'.1 == 0 then best' else LookOver(x, cur, size, k + 1, best')
  }

  function BucketMatch(x: seq<Byte>, cur: nat, size: nat, acceptLen: nat): (r: (nat, nat))
    requires cur + 4 <= |x| < NO_MATCH
    ensures Usable(x, cur, r.0, r.1)
  {
    var best := BestOf(x, cur, size, acceptLen, 0, (NO_MATCH, 0));
    if 3 < best.1 < acceptLen && cur < LastMatchPos(|x|) then LookOver(x, cur, size, 0, best) else best
  }

  function MatchAt(packer: Packer, x: seq<Byte>, cur: nat): (r: (nat, nat))
    requires cur + 4 <= |x| < NO_MATCH
    ensures Usable(x, cur, r.0, r.1)
  {
    match packer
    case Greedy => Nearest(x, cur)
    case Lazy => LazyMatch(x, cur)
    case Bucketed(size, acceptLen) => BucketMatch(x, cur, size, acceptLen)
  }

  /** Further back than this no match of four bytes is taken. */
  const NEAR := 0x3FE00

  function FarLimit(packer: Packer): (n: nat)
    ensures n <= NEAR
  {
    if packer == Greedy then 0x7E00 else NEAR
  }

  /** A match of five bytes is worth writing, and so is one of four that is near. */
  predicate Worthwhile(packer: Packer, cur: nat, r: (nat, nat)) {
    r.1 > 4 || (r.1 == 4 && r.0 < cur && cur - r.0 - 1 < FarLimit(packer))
  }

  function TokenAt(packer: Packer, x: seq<Byte>, cur: nat): (t: Token)
    requires |x| < NO_MATCH
  {
    if 1 <= cur <= LastMatchPos(|x|) && Worthwhile(packer, cur, MatchAt(packer, x, cur))
    then Match(MatchAt(packer, x, cur).0, MatchAt(packer, x, cur).1)
    else Literal
  }

  /** Each of the tokens up to a place is the one chosen where it stands. */
  ghost predicate Picked(packer: Packer, x: seq<Byte>, ts: seq<Token>, to: nat)
    requires |x| < NO_MATCH
    decreases |ts|
  {
    if ts == [] then to == 1
    else
      var t := ts[|ts| - 1];
      Length(t) <= to && t == TokenAt(packer, x, to - Length(t)) && Picked(packer, x, ts[..|ts| - 1], to - Length(t))
  }

  lemma PickedNext(packer: Packer, x: seq<Byte>, ts: seq<Token>, cur: nat)
    requires |x| < NO_MATCH && Picked(packer, x, ts, cur)
    ensures var t := TokenAt(packer, x, cur); Picked(packer, x, ts + [t], cur + Length(t))
  {
    hide TokenAt;
    var t := TokenAt(packer, x, cur);
    assert (ts + [t])[..|ts|] == ts;
  }

  lemma LiteralAtEnd(packer: Packer, x: seq<Byte>, cur: nat)
    requires |x| < NO_MATCH && cur > LastMatchPos(|x|)
    ensures TokenAt(packer, x, cur) == Literal
  {
  }

  lemma {:induction false} PickedRest(packer: Packer, x: seq<Byte>, ts: seq<Token>, cur: nat, n: nat)
    requires |x| < NO_MATCH && Picked(packer, x, ts, cur) && cur > LastMatchPos(|x|)
    ensures Picked(packer, x, ts + Literals(n), cur + n)
  {
    hide Picked, TokenAt;
    if n == 0 {
      assert ts + Literals(n) == ts;
    } else {
      PickedRest(packer, x, ts, cur, n - 1);
      LiteralAtEnd(packer, x, cur + n - 1);
      PickedNext(packer, x, ts + Literals(n - 1), cur + n - 1);
      assert ts + Literals(n) == ts + Literals(n - 1) + [Literal];
    }
  }

  /** The matches of four bytes among the tokens up to a place are near ones. */
  ghost predicate Chosen(ts: seq<Token>, to: nat)
    decreases |ts|
  {
    if ts == [] then true
    else
      var t := ts[|ts| - 1];
      Length(t) <= to && (t.Match? && t.len == 4 ==> to - 4 < t.pos + 1 + NEAR) && Chosen(ts[..|ts| - 1], to - Length(t))
  }

  lemma {:induction false} PickedChosen(packer: Packer, x: seq<Byte>, ts: seq<Token>, to: nat)
    requires |x| < NO_MATCH && Picked(packer, x, ts, to)
    ensures Chosen(ts, to)
    decreases |ts|
  {
    hide MatchAt;
    if ts != [] {
      PickedChosen(packer, x, ts[..|ts| - 1], to - Length(ts[|ts| - 1]));
    }
  }

  // ---- What the choices are worth ----

  lemma LongestAtLeast(x: seq<Byte>, p: nat, cur: nat, k: nat)
    requires p < cur <= |x|
    ensures Longest(x, p, cur) >= k <==> Agree(x, p, cur, k)
  {
    if Agree(x, p, cur, k) {
      CommonAtLeast(x, p, cur, 0, |x| - cur, k);
    }
    if Longest(x, p, cur) >= k {
      AgreeFewer(x, p, cur, Longest(x, p, cur), k);
    }
  }

  /** Enough agrees with p for a match to be worth writing. */
  ghost predicate Worth(x: seq<Byte>, cur: nat, p: nat, farLimit: nat) {
    p < cur && (Agree(x, p, cur, 5) || (Agree(x, p, cur, 4) && cur - p - 1 < farLimit))
  }

  lemma WorthIs(packer: Packer, x: seq<Byte>, cur: nat, p: nat)
    requires p < cur <= |x|
    ensures Worth(x, cur, p, FarLimit(packer)) <==> Worthwhile(packer, cur, (p, Longest(x, p, cur)))
  {
    hide Longest, FarLimit;
    LongestAtLeast(x, p, cur, 4);
    LongestAtLeast(x, p, cur, 5);
  }

  /** Level 1 takes all that agrees with the last position of the same hash, exactly if that is worth writing. */
  lemma GreedyTakes(x: seq<Byte>, cur: nat, p: nat)
    requires 1 <= cur <= LastMatchPos(|x|) && |x| < NO_MATCH && LastAlike(x, cur, p)
    ensures TokenAt(Greedy, x, cur) == if Worth(x, cur, p, 0x7E00) then Match(p, Longest(x, p, cur)) else Literal
  {
    hide Longest, Hash4, Worthwhile, Worth;
    RecentLast(x, cur, p, cur);
    WorthIs(Greedy, x, cur, p);
  }

  /** Without such a position levels 1 and 2 write a literal. */
  lemma NothingAlike(x: seq<Byte>, cur: nat)
    requires 1 <= cur <= LastMatchPos(|x|) && |x| < NO_MATCH && NoneAlike(x, cur)
    ensures TokenAt(Greedy, x, cur) == TokenAt(Lazy, x, cur) == Literal
  {
    hide Hash4, Longest;
    RecentNone(x, cur, cur);
  }

  /** A match with q at the next position is as long as one of cur and looks better, and does not extend back. */
  ghost predicate Defers(x: seq<Byte>, cur: nat, q: nat, pos: nat, len: nat) {
    && q <= cur && cur + 1 < |x| && Longest(x, q, cur + 1) >= len && NextMatchBetter(cur, q, Longest(x, q, cur + 1), pos, len)
    && (q == 0 || x[q - 1] != x[cur])
  }

  lemma WeighDefers(x: seq<Byte>, cur: nat, pos: nat, len: nat, next: nat)
    requires len > 3 && Usable(x, cur, pos, len) && next <= cur && cur + 1 < |x|
    ensures var r := Weigh(x, cur, pos, len, next, NextLen(x, cur, next, len)); r.1 == 0 <==> Defers(x, cur, next, pos, len)
  {
    hide Longest, NextMatchBetter, MatchBetter;
    NextLenIs(x, cur, next, len);
  }

  lemma NextLenIs(x: seq<Byte>, cur: nat, next: nat, len: nat)
    requires len > 3 && next <= cur && cur + 1 < |x|
    ensures var l, n := NextLen(x, cur, next, len), Longest(x, next, cur + 1); if n >= len then l == n else l < len
  {
    var n := Longest(x, next, cur + 1);
    if n >= len {
      assert x[next..next + n][len - 1] == x[cur + 1..cur + 1 + n][len - 1];
    }
  }

  /** The last position with the next one's hash, unless it is that of the same match one further on. */
  ghost predicate NextDefers(x: seq<Byte>, cur: nat, p: nat) {
    && p < cur < LastMatchPos(|x|)
    && var q := Recent(x, Hash4(x, cur + 1), cur + 1, 0);
       q != NO_MATCH && q != p + 1 && Defers(x, cur, q, p, Longest(x, p, cur))
  }

  /**
   * Level 2 does at least as well as level 1 where it takes a match, and writes a literal in place of one worth
   * writing exactly if the next position's last of the same hash defers it.
   */
  lemma LazyTakes(x: seq<Byte>, cur: nat, p: nat)
    requires 1 <= cur <= LastMatchPos(|x|) && |x| < NO_MATCH && LastAlike(x, cur, p) && Worth(x, cur, p, NEAR)
    ensures var t := TokenAt(Lazy, x, cur); t.Match? ==> t.len >= Longest(x, p, cur) >= 4
    ensures TokenAt(Lazy, x, cur) == Literal <==> NextDefers(x, cur, p)
  {
    hide Longest, Hash4, Worth, Recent, Weigh, NextLen, Defers;
    RecentLast(x, cur, p, cur);
    WorthIs(Lazy, x, cur, p);
    var m := Nearest(x, cur);
    assert m == (p, Longest(x, p, cur));
    if m.1 > 3 && cur < LastMatchPos(|x|) {
      var q := Recent(x, Hash4(x, cur + 1), cur + 1, 0);
      if q != NO_MATCH && q != p + 1 {
        WeighDefers(x, cur, p, m.1, q);
        WeighStill(Lazy, x, cur, p, m.1, q);
      }
    }
  }

  /** What is put in place of a match worth writing is worth writing. */
  lemma WeighStill(packer: Packer, x: seq<Byte>, cur: nat, pos: nat, len: nat, next: nat)
    requires len > 3 && Usable(x, cur, pos, len) && next <= cur && cur + 1 < |x|
    requires Worthwhile(packer, cur, (pos, len))
    ensures var r := Weigh(x, cur, pos, len, next, NextLen(x, cur, next, len)); r.1 == 0 || Worthwhile(packer, cur, r)
  {
    hide Longest, NextMatchBetter, MatchBetter, NextLen;
  }

  // ---- Several positions to a hash ----

  lemma {:induction false} RecentFewer(x: seq<Byte>, h: nat, before: nat, k: nat, j: nat)
    requires before + 3 <= |x| < NO_MATCH && k <= j && Recent(x, h, before, k) == NO_MATCH
    ensures Recent(x, h, before, j) == NO_MATCH
    decreases before
  {
    hide Hash4;
    if before > 0 {
      if Hash4(x, before - 1) != h {
        RecentFewer(x, h, before - 1, k, j);
      } else if k > 0 {
        RecentFewer(x, h, before - 1, k - 1, j - 1);
      }
    }
  }

  /** No more agrees with p than with the best, or one character more, at more than eight times the distance. */
  ghost predicate NotOutdone(x: seq<Byte>, cur: nat, p: nat, best: (nat, nat)) {
    p < cur <= |x|
    && (Longest(x, p, cur) <= best.1 || (Longest(x, p, cur) == best.1 + 1 && Offset(cur, p) / 8 > Offset(cur, best.0)))
  }

  lemma BetterOutdoes(x: seq<Byte>, cur: nat, pos: nat, best: (nat, nat))
    requires pos < cur <= |x|
    ensures NotOutdone(x, cur, pos, Better(x, cur, pos, best))
  {
    var n := Longest(x, pos, cur);
    if n > best.1 {
      assert x[pos..pos + n][best.1] == x[cur..cur + n][best.1];
    }
  }

  lemma StillNotOutdone(x: seq<Byte>, cur: nat, p: nat, pos: nat, best: (nat, nat))
    requires NotOutdone(x, cur, p, best) && pos < cur <= |x|
    ensures NotOutdone(x, cur, p, Better(x, cur, pos, best))
  {
  }

  lemma {:induction false} BestKeeps(x: seq<Byte>, cur: nat, size: nat, acceptLen: nat, k: nat, best: (nat, nat), p: nat)
    requires cur + 4 <= |x| < NO_MATCH && k <= size && Usable(x, cur, best.0, best.1) && NotOutdone(x, cur, p, best)
    ensures NotOutdone(x, cur, p, BestOf(x, cur, size, acceptLen, k, best))
    decreases size - k
  {
    hide NotOutdone, Better, Usable, Recent;
    var pos := if k < size then Recent(x, Hash4(x, cur), cur, k) else NO_MATCH;
    if pos != NO_MATCH {
      StillNotOutdone(x, cur, p, pos, best);
      var best' := Better(x, cur, pos, best);
      if best' == best || best'.1 < acceptLen {
        BestKeeps(x, cur, size, acceptLen, k + 1, best', p);
      }
    }
  }

  /** The best match is not outdone by any of the last positions with the hash, unless it is long enough. */
  lemma {:induction false} BestOutdoes(x: seq<Byte>, cur: nat, size: nat, acceptLen: nat, k: nat, best: (nat, nat), j: nat)
    requires cur + 4 <= |x| < NO_MATCH && k <= j < size && Usable(x, cur, best.0, best.1)
    requires Recent(x, Hash4(x, cur), cur, j) != NO_MATCH
    ensures var r := BestOf(x, cur, size, acceptLen, k, best); r.1 >= acceptLen || NotOutdone(x, cur, Recent(x, Hash4(x, cur), cur, j), r)
    decreases size - k
  {
    hide NotOutdone, Better, Usable, Recent, Hash4;
    var pos := Recent(x, Hash4(x, cur), cur, k);
    if pos == NO_MATCH {
      RecentFewer(x, Hash4(x, cur), cur, k, j);
    } else {
      var best' := Better(x, cur, pos, best);
      if best' == best || best'.1 < acceptLen {
        if k == j {
          BetterOutdoes(x, cur, pos, best);
          BestKeeps(x, cur, size, acceptLen, k + 1, best', pos);
        } else {
          BestOutdoes(x, cur, size, acceptLen, k + 1, best', j);
        }
      }
    }
  }

  /** Levels 3 and 4 take a match at least as long as the best one, or write a literal because a position of the next hash defers one. */
  lemma {:induction false} LookOverDefers(x: seq<Byte>, cur: nat, size: nat, k: nat, best: (nat, nat)) returns (j: nat, m: (nat, nat))
    requires cur + 5 <= |x| < NO_MATCH && k <= size && best.1 > 3 && Usable(x, cur, best.0, best.1)
    ensures Usable(x, cur, m.0, m.1) && m.1 >= best.1
    ensures LookOver(x, cur, size, k, best).1 == 0
            ==> k <= j < size && Recent(x, Hash4(x, cur + 1), cur + 1, j) != NO_MATCH
                && Defers(x, cur, Recent(x, Hash4(x, cur + 1), cur + 1, j), m.0, m.1)
    decreases size - k
  {
    hide Longest, Hash4, Usable, Recent, Weigh, NextLen, Defers;
    j, m := k, best;
    var next := if k < size then Recent(x, Hash4(x, cur + 1), cur + 1, k) else NO_MATCH;
    if next != NO_MATCH {
      WeighDefers(x, cur, best.0, best.1, next);
      var best' := Weigh(x, cur, best.0, best.1, next, NextLen(x, cur, next, best.1));
      if best'.1 != 0 {
        j, m := LookOverDefers(x, cur, size, k + 1, best');
      }
    }
  }

  lemma {:induction false} LookOverStill(packer: Packer, x: seq<Byte>, cur: nat, size: nat, k: nat, best: (nat, nat))
    requires cur + 5 <= |x| < NO_MATCH && k <= size && best.1 > 3 && Usable(x, cur, best.0, best.1) && Worthwhile(packer, cur, best)
    ensures var r := LookOver(x, cur, size, k, best); r.1 == 0 || Worthwhile(packer, cur, r)
    decreases size - k
  {
    hide Longest, Hash4, Usable, Recent, Weigh, NextLen, Worthwhile;
    var next := if k < size then Recent(x, Hash4(x, cur + 1), cur + 1, k) else NO_MATCH;
    if next != NO_MATCH {
      WeighStill(packer, x, cur, best.0, best.1, next);
      var best' := Weigh(x, cur, best.0, best.1, next, NextLen(x, cur, next, best.1));
      if best'.1 != 0 {
        LookOverStill(packer, x, cur, size, k + 1, best');
      }
    }
  }

  /**
   * Levels 3 and 4 take a match at least as long as the best one if that is worth writing, or write a literal
   * because one of the last positions of the next one's hash defers a match as long as the best one.
   */
  lemma BucketTakes(x: seq<Byte>, cur: nat, size: nat, acceptLen: nat) returns (j: nat, m: (nat, nat))
    requires 1 <= cur <= LastMatchPos(|x|) && |x| < NO_MATCH
    ensures var best, t := BestOf(x, cur, size, acceptLen, 0, (NO_MATCH, 0)), TokenAt(Bucketed(size, acceptLen), x, cur);
            && (best.1 <= 3 ==> t == Literal)
            && (best.1 >= acceptLen && Worthwhile(Bucketed(size, acceptLen), cur, best) ==> t == Match(best.0, best.1))
            && (t.Match? ==> t.len >= best.1)
            && (t == Literal && Worthwhile(Bucketed(size, acceptLen), cur, best)
                ==> Usable(x, cur, m.0, m.1) && m.1 >= best.1 && j < size && cur < LastMatchPos(|x|)
                    && Recent(x, Hash4(x, cur + 1), cur + 1, j) != NO_MATCH
                    && Defers(x, cur, Recent(x, Hash4(x, cur + 1), cur + 1, j), m.0, m.1))
  {
    hide Longest, Hash4, Recent, BestOf, LookOver, Defers, FarLimit;
    var packer := Bucketed(size, acceptLen);
    var best := BestOf(x, cur, size, acceptLen, 0, (NO_MATCH, 0));
    j, m := 0, best;
    if 3 < best.1 < acceptLen && cur < LastMatchPos(|x|) {
      j, m := LookOverDefers(x, cur, size, 0, best);
      if Worthwhile(packer, cur, best) {
        LookOverStill(packer, x, cur, size, 0, best);
      }
    }
  }
}

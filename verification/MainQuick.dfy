/** The main sort's quicksort, by the character at a depth, on an explicit stack. */
module MainQuick {
  import opened Permutations
  import opened HeaderBits
  import opened Rotations
  import opened SegmentSort
  import opened SegmentSortStack
  import opened MainCompare
  import opened MainSimple

  const MAIN_SMALL := 20
  /** Deeper segments are left to insertion. */
  const MAIN_DEEP := 14
  const N_RADIX := 2

  /** A segment and how many characters its rotations share. */
  datatype Part = Part(seg: Segment, d: nat)

  function Segments(todo: seq<Part>): (s: seq<Segment>)
    ensures |s| == |todo| && forall i :: 0 <= i < |s| ==> s[i] == todo[i].seg
  {
    seq(|todo|, i requires 0 <= i < |todo| => todo[i].seg)
  }

  // ---- Splitting a segment by one character ----

  lemma CharBehind(b: seq<Byte>, block: seq<nat>, p: nat, d: nat)
    requires BlockIs(b, block) && p < |b| && d <= MAX_DEPTH
    ensures d <= |block| && p < |block[d..]| && block[d..][p] == b[Advance(|b|, p, d)]
  {
    hide Key;
    CharAt(b, block, p + d);
  }

  /** One character more decides between rotations that share d, or is shared as well. */
  lemma DepthDecides(b: seq<Byte>, u: nat, v: nat, d: nat)
    requires u < |b| && v < |b| && d < |b| && Key(b, u, d) == Key(b, v, d)
    ensures b[Advance(|b|, u, d)] < b[Advance(|b|, v, d)] ==> Key(b, u, |b|) <= Key(b, v, |b|)
    ensures b[Advance(|b|, u, d)] == b[Advance(|b|, v, d)] ==> Key(b, u, d + 1) == Key(b, v, d + 1)
  {
    KeyOrder(b, u, v, d, |b| - d);
    KeyHead(b, Advance(|b|, u, d), Advance(|b|, v, d), |b| - d);
    KeyOrder(b, u, v, d, 1);
    KeyHead(b, Advance(|b|, u, d), Advance(|b|, v, d), 1);
  }

  /** Ranks in a range of rotations are their characters d further on. */
  lemma BandChar(b: seq<Byte>, block: seq<nat>, s: seq<nat>, d: nat, k: nat)
    requires BlockIs(b, block) && d <= MAX_DEPTH && k < |s| && s[k] < |b|
    ensures d <= |block| && s[k] < |block[d..]| && block[d..][s[k]] == b[Advance(|b|, s[k], d)]
  {
    CharBehind(b, block, s[k], d);
  }

  lemma EqualSharesMore(b: seq<Byte>, block: seq<nat>, s: seq<nat>, lo: int, hi: int, d: nat, med: nat)
    requires BlockIs(b, block) && d < MAX_DEPTH && 0 <= lo && hi < |s|
    requires Shares(b, s, lo, hi, d) && InRange(s, |b|) && Band(block[d..], s, lo, hi + 1, med, 0)
    ensures Shares(b, s, lo, hi, d + 1)
  {
    hide Key;
    forall k, m | lo <= k <= hi && lo <= m <= hi ensures Key(b, s[k], d + 1) == Key(b, s[m], d + 1) {
      BandChar(b, block, s, d, k);
      BandChar(b, block, s, d, m);
      DepthDecides(b, s[k], s[m], d);
    }
  }

  lemma SharesPart(b: seq<Byte>, s: seq<nat>, lo: int, hi: int, d: nat, l: int, h: int)
    requires Shares(b, s, lo, hi, d) && lo <= l && h <= hi
    ensures Shares(b, s, l, h, d)
  {
    hide Key;
  }

  /** Rotations in different bands are in order. */
  lemma BandsInOrder(b: seq<Byte>, block: seq<nat>, s: seq<nat>, lo: int, hi: int, n: int, m: int, med: nat, d: nat, x: int, y: int)
    requires BlockIs(b, block) && d < MAX_DEPTH && Shares(b, s, lo, hi, d) && InRange(s, |b|) && lo - 1 <= n < m <= hi + 1
    requires Band(block[d..], s, lo, n + 1, med, -1) && Band(block[d..], s, n + 1, m, med, 0) && Band(block[d..], s, m, hi + 1, med, 1)
    requires lo <= x < y <= hi && (x <= n < y || x < m <= y)
    ensures Keys(b)[s[x]] <= Keys(b)[s[y]]
  {
    hide Key;
    BandChar(b, block, s, d, x);
    BandChar(b, block, s, d, y);
    DepthDecides(b, s[x], s[y], d);
  }

  /** The three parts of a split segment, in some order. */
  ghost predicate Arranged(a: Part, c: Part, e: Part, inner: seq<Part>) {
    |inner| == 3
    && ((inner[0] == a && inner[1] == c && inner[2] == e) || (inner[0] == a && inner[1] == e && inner[2] == c)
        || (inner[0] == c && inner[1] == a && inner[2] == e) || (inner[0] == c && inner[1] == e && inner[2] == a)
        || (inner[0] == e && inner[1] == a && inner[2] == c) || (inner[0] == e && inner[1] == c && inner[2] == a))
  }

  lemma ArrangedHas(a: Part, c: Part, e: Part, inner: seq<Part>, p: Part) returns (i: nat)
    requires Arranged(a, c, e, inner) && (p == a || p == c || p == e)
    ensures i < 3 == |inner| && inner[i] == p
  {
    i := if inner[0] == p then 0 else if inner[1] == p then 1 else 2;
  }

  lemma SplitSortedBut(b: seq<Byte>, block: seq<nat>, s: seq<nat>, lo: int, hi: int, n: int, m: int, med: nat, d: nat, inner: seq<Part>)
    requires BlockIs(b, block) && d < MAX_DEPTH && 0 <= lo && hi < |s| && Shares(b, s, lo, hi, d) && InRange(s, |b|) && lo - 1 <= n < m <= hi + 1
    requires Band(block[d..], s, lo, n + 1, med, -1) && Band(block[d..], s, n + 1, m, med, 0) && Band(block[d..], s, m, hi + 1, med, 1)
    requires Arranged(Part(Segment(lo, n), d), Part(Segment(m, hi), d), Part(Segment(n + 1, m - 1), d + 1), inner)
    ensures SortedBut(Gather(Keys(b), s), lo, hi, Segments(inner))
  {
    hide Key, Shares, BlockIs, Band, Arranged, Keys;
    var key, t := Gather(Keys(b), s), Segments(inner);
    forall x, y | lo <= x < y <= hi ensures key[x] <= key[y] || Together(t, x, y) {
      if x <= n < y || x < m <= y {
        BandsInOrder(b, block, s, lo, hi, n, m, med, d, x, y);
      } else {
        var p := if y <= n then Part(Segment(lo, n), d) else if m <= x then Part(Segment(m, hi), d) else Part(Segment(n + 1, m - 1), d + 1);
        var i := ArrangedHas(Part(Segment(lo, n), d), Part(Segment(m, hi), d), Part(Segment(n + 1, m - 1), d + 1), inner, p);
        assert t[i] == p.seg;
      }
    }
  }

  // ---- The stack ----

  /** Each segment on the stack shares what it says; sizes halve every second level. */
  ghost predicate PartsOk(b: seq<Byte>, s: seq<nat>, todo: seq<Part>) {
    forall i :: 0 <= i < |todo| ==> PartOk(b, s, todo[i])
  }

  ghost predicate PartOk(b: seq<Byte>, s: seq<nat>, p: Part) {
    N_RADIX <= p.d <= MAX_DEPTH && Shares(b, s, p.seg.lo, p.seg.hi, p.d)
  }

  ghost predicate Thinning(todo: seq<Part>, total: nat) {
    forall i :: 0 <= i < |todo| ==> Size(todo[i].seg) >= 0 && Size(todo[i].seg) * Pow2((i + 1) / 2) <= total
  }

  ghost function Effort(todo: seq<Part>): int {
    if todo == [] then 0 else Effort(todo[..|todo| - 1]) + 4 * Size(todo[|todo| - 1].seg) * (16 - todo[|todo| - 1].d) + 1
  }

  lemma {:induction false} EffortPositive(todo: seq<Part>)
    requires forall i :: 0 <= i < |todo| ==> Size(todo[i].seg) >= 0 && todo[i].d <= MAX_DEPTH
    ensures Effort(todo) >= |todo|
  {
    if todo != [] {
      EffortPositive(todo[..|todo| - 1]);
      var p := todo[|todo| - 1];
      assert Size(p.seg) * (16 - p.d) >= 0;
    }
  }

  function Cost(p: Part): int {
    4 * Size(p.seg) * (16 - p.d) + 1
  }

  lemma EffortPush(todo: seq<Part>, p: Part)
    ensures Effort(todo + [p]) == Effort(todo) + Cost(p)
  {
    assert (todo + [p])[..|todo|] == todo;
  }

  /** The parts of a split segment take less effort than it. */
  lemma SplitEffort(s: Part, a: Part, c: Part, e: Part)
    requires s.d < MAX_DEPTH && a.d == c.d == s.d && e.d == s.d + 1 && Size(e.seg) >= 1
    requires Size(a.seg) + Size(c.seg) + Size(e.seg) == Size(s.seg)
    ensures Cost(a) + Cost(c) + Cost(e) < Cost(s)
  {
    var k := 16 - s.d;
    assert Size(s.seg) * k == Size(a.seg) * k + Size(c.seg) * k + Size(e.seg) * k;
    assert Size(e.seg) * (k - 1) == Size(e.seg) * k - Size(e.seg);
  }

  /** A segment large enough to be split lies low on the stack. */
  lemma SplitLow(size: nat, level: nat)
    requires size * Pow2((level + 1) / 2) <= MAX_BLOCK && size > MAIN_SMALL
    ensures level <= 31
  {
    assert Pow2(8) == 256;
    assert Pow2(16) == 65536;
    if level >= 32 {
      Pow2Monotone(16, (level + 1) / 2);
      ProductBound(size, Pow2((level + 1) / 2), 21, 65536);
    }
  }

  /** What holds between two rounds. */
  ghost predicate Standing(b: seq<Byte>, was: seq<nat>, s: seq<nat>, lo: int, hi: int, todo: seq<Part>) {
    && Sorting(Keys(b), was, s, lo, hi, Segments(todo)) && hi - lo < MAX_BLOCK
    && Disjoint(Segments(todo)) && Within(Segments(todo), lo, hi)
    && PartsOk(b, s, todo) && Thinning(todo, MAX_BLOCK) && |todo| <= 34
  }

  /** What a round leaves of its segment. */
  ghost predicate Left(b: seq<Byte>, before: seq<nat>, after: seq<nat>, s: Part, inner: seq<Part>) {
    && RangePermutation(before, after, s.seg.lo, s.seg.hi) && InRange(after, |b|) && 0 <= s.seg.lo && s.seg.hi < |after|
    && SortedBut(Gather(Keys(b), after), s.seg.lo, s.seg.hi, Segments(inner))
    && PartsOk(b, after, inner) && Disjoint(Segments(inner)) && Within(Segments(inner), s.seg.lo, s.seg.hi)
    && (inner == [] || Again(s, inner) || Three(s, inner))
  }

  /** The same segment, one character deeper. */
  ghost predicate Again(s: Part, inner: seq<Part>) {
    inner == [Part(s.seg, s.d + 1)] && Size(s.seg) > 0 && s.d < MAX_DEPTH
  }

  /** Three parts, the largest first. */
  ghost predicate Three(s: Part, inner: seq<Part>) {
    && |inner| == 3 && Size(s.seg) > MAIN_SMALL
    && Size(inner[0].seg) >= Size(inner[1].seg) >= Size(inner[2].seg) >= 0
    && Size(inner[0].seg) + Size(inner[1].seg) + Size(inner[2].seg) == Size(s.seg)
    && Cost(inner[0]) + Cost(inner[1]) + Cost(inner[2]) < Cost(s)
  }

  lemma SharesFrame(b: seq<Byte>, s: seq<nat>, t: seq<nat>, lo: int, hi: int, l: int, h: int, d: nat)
    requires Shares(b, s, l, h, d) && RangePermutation(s, t, lo, hi) && (h < lo || hi < l)
    ensures Shares(b, t, l, h, d)
  {
    hide Key;
  }

  lemma RestOk(b: seq<Byte>, before: seq<nat>, after: seq<nat>, todo: seq<Part>)
    requires |todo| > 0 && PartsOk(b, before, todo) && Disjoint(Segments(todo))
    requires RangePermutation(before, after, todo[|todo| - 1].seg.lo, todo[|todo| - 1].seg.hi)
    ensures PartsOk(b, after, todo[..|todo| - 1])
  {
    hide Shares, RangePermutation;
    var s, segs, rest := todo[|todo| - 1], Segments(todo), todo[..|todo| - 1];
    forall i | 0 <= i < |rest| ensures PartOk(b, after, rest[i]) {
      assert PartOk(b, before, todo[i]);
      assert segs[i].hi < segs[|todo| - 1].lo || segs[|todo| - 1].hi < segs[i].lo;
      SharesFrame(b, before, after, s.seg.lo, s.seg.hi, todo[i].seg.lo, todo[i].seg.hi, todo[i].d);
    }
  }

  lemma DisjointInner(todo: seq<Segment>, lo: int, hi: int, inner: seq<Segment>)
    requires |todo| > 0 && Disjoint(todo) && Within(todo, lo, hi)
    requires Disjoint(inner) && Within(inner, todo[|todo| - 1].lo, todo[|todo| - 1].hi)
    ensures Disjoint(todo[..|todo| - 1] + inner) && Within(todo[..|todo| - 1] + inner, lo, hi)
  {
    var last := |todo| - 1;
    var next := todo[..last] + inner;
    forall i, j | 0 <= i < j < |next| ensures next[i].hi < next[j].lo || next[j].hi < next[i].lo {
      if i < last <= j {
        assert next[j] == inner[j - last];
        assert todo[i].hi < todo[last].lo || todo[last].hi < todo[i].lo;
      } else if last <= i {
        assert next[i] == inner[i - last] && next[j] == inner[j - last];
      }
    }
  }

  lemma ThinningKeeps(todo: seq<Part>, total: nat, inner: seq<Part>)
    requires |todo| > 0 && Thinning(todo, total)
    requires inner == [] || Again(todo[|todo| - 1], inner) || Three(todo[|todo| - 1], inner)
    ensures Thinning(todo[..|todo| - 1] + inner, total)
  {
    var level := |todo| - 1;
    var s, next := todo[level], todo[..level] + inner;
    forall i | 0 <= i < |next| ensures Size(next[i].seg) >= 0 && Size(next[i].seg) * Pow2((i + 1) / 2) <= total {
      if i < level {
        assert next[i] == todo[i];
      } else {
        assert next[i] == inner[i - level];
        var size, up := Size(s.seg), (level + 1) / 2;
        if i == level {
          ProductBound(size, Pow2(up), Size(next[i].seg), Pow2(up));
        } else {
          HalvingStep(size, Size(next[i].seg), up, total);
          Pow2Monotone((i + 1) / 2, up + 1);
          ProductBound(Size(next[i].seg), Pow2(up + 1), Size(next[i].seg), Pow2((i + 1) / 2));
        }
      }
    }
  }

  lemma EffortFalls(todo: seq<Part>, inner: seq<Part>)
    requires |todo| > 0 && (inner == [] || Again(todo[|todo| - 1], inner) || Three(todo[|todo| - 1], inner))
    requires Size(todo[|todo| - 1].seg) >= 0 && todo[|todo| - 1].d <= MAX_DEPTH
    ensures Effort(todo[..|todo| - 1] + inner) < Effort(todo)
  {
    hide Effort, Cost, Size;
    var rest, s := todo[..|todo| - 1], todo[|todo| - 1];
    assert rest + [s] == todo;
    EffortPush(rest, s);
    if inner == [] {
      assert rest + inner == rest;
      CostPositive(s);
    } else if |inner| == 1 {
      EffortPush(rest, inner[0]);
      assert rest + inner == rest + [inner[0]];
      DeeperCosts(s, inner);
    } else {
      EffortPush(rest, inner[0]);
      EffortPush(rest + [inner[0]], inner[1]);
      EffortPush(rest + [inner[0]] + [inner[1]], inner[2]);
      assert rest + inner == rest + [inner[0]] + [inner[1]] + [inner[2]];
    }
  }

  lemma CostPositive(p: Part)
    requires Size(p.seg) >= 0 && p.d <= MAX_DEPTH
    ensures Cost(p) > 0
  {
    assert Size(p.seg) * (16 - p.d) >= 0;
  }

  lemma DeeperCosts(s: Part, inner: seq<Part>)
    requires Again(s, inner)
    ensures Cost(inner[0]) < Cost(s)
  {
    assert Size(s.seg) * (16 - (s.d + 1)) == Size(s.seg) * (16 - s.d) - Size(s.seg);
  }

  lemma SegmentsSplit(todo: seq<Part>, inner: seq<Part>)
    requires |todo| > 0
    ensures Segments(todo[..|todo| - 1] + inner) == Segments(todo)[..|todo| - 1] + Segments(inner)
  {
  }

  /** A round keeps all that holds, and leaves less to do. */
  lemma RoundStands(b: seq<Byte>, was: seq<nat>, before: seq<nat>, after: seq<nat>, lo: int, hi: int, todo: seq<Part>, inner: seq<Part>)
    requires |todo| > 0 && Standing(b, was, before, lo, hi, todo) && Left(b, before, after, todo[|todo| - 1], inner)
    ensures Standing(b, was, after, lo, hi, todo[..|todo| - 1] + inner)
    ensures 0 <= Effort(todo[..|todo| - 1] + inner) < Effort(todo)
  {
    hide Key, Keys, Shares, Size, Cost, Effort;
    var s, next := todo[|todo| - 1], todo[..|todo| - 1] + inner;
    SegmentsSplit(todo, inner);
    assert PartOk(b, before, s);
    KeysRearranged(Keys(b), before, after, s.seg.lo, s.seg.hi);
    SegmentDone(Gather(Keys(b), before), Gather(Keys(b), after), lo, hi, Segments(todo), Segments(inner));
    RangeChain(was, before, after, lo, hi, s.seg.lo, s.seg.hi);
    RestOk(b, before, after, todo);
    DisjointInner(Segments(todo), lo, hi, Segments(inner));
    ThinningKeeps(todo, MAX_BLOCK, inner);
    EffortFalls(todo, inner);
    StackRoom(todo, inner);
    NextOk(b, after, todo[..|todo| - 1], inner);
    EffortPositive(next);
  }

  lemma NextOk(b: seq<Byte>, s: seq<nat>, rest: seq<Part>, inner: seq<Part>)
    requires PartsOk(b, s, rest) && PartsOk(b, s, inner)
    ensures PartsOk(b, s, rest + inner) && forall i :: 0 <= i < |rest + inner| ==> (rest + inner)[i].d <= MAX_DEPTH
  {
    hide Shares;
    forall i | 0 <= i < |rest + inner| ensures PartOk(b, s, (rest + inner)[i]) && (rest + inner)[i].d <= MAX_DEPTH {
      if i < |rest| {
        assert PartOk(b, s, rest[i]);
      } else {
        assert PartOk(b, s, inner[i - |rest|]);
      }
    }
  }

  /** There is always room for what a round leaves. */
  lemma StackRoom(todo: seq<Part>, inner: seq<Part>)
    requires |todo| > 0 && Thinning(todo, MAX_BLOCK) && |todo| <= 34
    requires inner == [] || Again(todo[|todo| - 1], inner) || Three(todo[|todo| - 1], inner)
    ensures |todo| - 1 + |inner| <= 34
  {
    if |inner| == 3 {
      SplitLow(Size(todo[|todo| - 1].seg), |todo| - 1);
    }
  }

  // ---- Sorting ----

  function Med3(a: nat, b: nat, c: nat): (m: nat)
    ensures m == a || m == b || m == c
  {
    var (x, y) := if a > b then (b, a) else (a, b);
    if y > c then (if x > c then x else c) else y
  }

  /** The three parts, largest first. */
  method Arrange(a: Part, c: Part, e: Part) returns (inner: seq<Part>)
    ensures Arranged(a, c, e, inner)
    ensures Size(inner[0].seg) >= Size(inner[1].seg) >= Size(inner[2].seg)
  {
    var next0, next1, next2 := a, c, e;
    if Size(next0.seg) < Size(next1.seg) { next0, next1 := next1, next0; }
    if Size(next1.seg) < Size(next2.seg) { next1, next2 := next2, next1; }
    if Size(next0.seg) < Size(next1.seg) { next0, next1 := next1, next0; }
    inner := [next0, next1, next2];
  }

  lemma ArrangedParts(b: seq<Byte>, s: seq<nat>, lo: int, hi: int, n: int, m: int, d: nat, inner: seq<Part>)
    requires Shares(b, s, lo, hi, d) && Shares(b, s, n + 1, m - 1, d + 1) && N_RADIX <= d < MAX_DEPTH
    requires lo - 1 <= n && n + 2 <= m <= hi + 1 && hi - lo >= MAIN_SMALL
    requires Arranged(Part(Segment(lo, n), d), Part(Segment(m, hi), d), Part(Segment(n + 1, m - 1), d + 1), inner)
    requires Size(inner[0].seg) >= Size(inner[1].seg) >= Size(inner[2].seg)
    ensures PartsOk(b, s, inner) && Disjoint(Segments(inner)) && Within(Segments(inner), lo, hi)
    ensures Three(Part(Segment(lo, hi), d), inner)
  {
    hide Shares, Key, Cost, Disjoint, Within;
    var a, c, e := Part(Segment(lo, n), d), Part(Segment(m, hi), d), Part(Segment(n + 1, m - 1), d + 1);
    SharesPart(b, s, lo, hi, d, lo, n);
    SharesPart(b, s, lo, hi, d, m, hi);
    SplitEffort(Part(Segment(lo, hi), d), a, c, e);
    forall i | 0 <= i < |inner| ensures PartOk(b, s, inner[i]) {
      assert inner[i] == a || inner[i] == c || inner[i] == e;
    }
    ArrangedApart(lo, hi, n, m, d, inner);
  }

  lemma ArrangedApart(lo: int, hi: int, n: int, m: int, d: nat, inner: seq<Part>)
    requires lo - 1 <= n && n + 2 <= m <= hi + 1
    requires Arranged(Part(Segment(lo, n), d), Part(Segment(m, hi), d), Part(Segment(n + 1, m - 1), d + 1), inner)
    ensures Disjoint(Segments(inner)) && Within(Segments(inner), lo, hi)
  {
  }

  /** Splits a segment by the character behind those its rotations share. */
  method SplitPart(ptr: array<nat>, block: array<nat>, nblock: nat, lo: int, hi: int, d: nat, ghost b: seq<Byte>)
    returns (inner: seq<Part>)
    requires ptr != block && nblock == |b| && BlockIs(b, block[..]) && N_RADIX <= d <= MAIN_DEEP && hi - lo >= MAIN_SMALL
    requires Shares(b, ptr[..], lo, hi, d) && InRange(ptr[..], nblock)
    modifies ptr
    ensures Left(b, old(ptr[..]), ptr[..], Part(Segment(lo, hi), d), inner)
  {
    hide Key, Keys, BlockIs, Shares, InRange, RangePermutation, Band, Partition, SortedBut, Arranged, PartsOk, Three, Disjoint, Within;
    ghost var was := ptr[..];
    InBlock(b, block[..], was, d);
    ghost var rank := block[d..];
    var med := MiddleChar(ptr, block, lo, hi, d, b);
    var ltLo, unLo, unHi, gtHi := Split(ptr, block, d, lo, hi, med);
    ghost var mid := ptr[..];
    RangeInRange(was, mid, lo, hi, nblock);
    SharesStay(b, was, mid, lo, hi, d);
    if gtHi < ltLo {
      AllEqual(rank, mid, lo, hi, med, ltLo, unLo, unHi, gtHi);
      InBlock(b, block[..], mid, d);
      EqualSharesMore(b, block[..], mid, lo, hi, d, med);
      inner := [Part(Segment(lo, hi), d + 1)];
      AgainLeft(b, was, mid, lo, hi, d);
      return;
    }
    var n, m := GatherEqual(ptr, block, d, lo, hi, med, ltLo, unLo, unHi, gtHi);
    RangeChain(was, mid, ptr[..], lo, hi, lo, hi);
    RangeInRange(was, ptr[..], lo, hi, nblock);
    SharesStay(b, was, ptr[..], lo, hi, d);
    InBlock(b, block[..], ptr[..], d);
    MedianThere(b, rank, was, ptr[..], lo, hi, n, m, med);
    SharesPart(b, ptr[..], lo, hi, d, n + 1, m - 1);
    EqualSharesMore(b, block[..], ptr[..], n + 1, m - 1, d, med);
    inner := Arrange(Part(Segment(lo, n), d), Part(Segment(m, hi), d), Part(Segment(n + 1, m - 1), d + 1));
    SplitSortedBut(b, block[..], ptr[..], lo, hi, n, m, med, d, inner);
    ArrangedParts(b, ptr[..], lo, hi, n, m, d, inner);
    ThreeLeft(b, was, ptr[..], lo, hi, d, inner);
  }

  lemma InBlock(b: seq<Byte>, block: seq<nat>, s: seq<nat>, d: nat)
    requires BlockIs(b, block) && d <= MAX_DEPTH && InRange(s, |b|)
    ensures d <= |block| && InRange(s, |block| - d)
  {
  }

  /** A character of the segment to split it by. */
  method MiddleChar(ptr: array<nat>, block: array<nat>, lo: int, hi: int, d: nat, ghost b: seq<Byte>) returns (med: nat)
    requires BlockIs(b, block[..]) && d <= MAIN_DEEP && hi - lo >= MAIN_SMALL && Shares(b, ptr[..], lo, hi, d)
    ensures exists k :: lo <= k <= hi < ptr.Length && 0 <= lo && ptr[k] + d < block.Length && block[ptr[k] + d] == med
  {
    hide Key;
    var mid := (lo + hi) / 2;
    SharesAt(b, ptr[..], lo, hi, d, lo, hi);
    SharesAt(b, ptr[..], lo, hi, d, mid, mid);
    assert ptr[..][lo] == ptr[lo] && ptr[..][hi] == ptr[hi] && ptr[..][mid] == ptr[mid];
    med := Med3(block[ptr[lo] + d], block[ptr[hi] + d], block[ptr[mid] + d]);
  }

  lemma AllEqual(rank: seq<nat>, s: seq<nat>, lo: int, hi: int, med: nat, ltLo: int, unLo: int, unHi: int, gtHi: int)
    requires Partition(rank, s, lo, hi, med, ltLo, unLo, unHi, gtHi) && unHi == unLo - 1 && gtHi < ltLo
    ensures 0 <= lo && hi < |s| && Band(rank, s, lo, hi + 1, med, 0)
  {
  }

  /** The character split by is still there, so the middle band is not empty. */
  lemma MedianThere(b: seq<Byte>, rank: seq<nat>, was: seq<nat>, s: seq<nat>, lo: int, hi: int, n: int, m: int, med: nat)
    requires RangePermutation(was, s, lo, hi) && 0 <= lo && hi < |was| && InRange(was, |rank|) && InRange(s, |rank|) && lo - 1 <= n < m <= hi + 1
    requires exists k :: lo <= k <= hi && was[k] < |rank| && rank[was[k]] == med
    requires Band(rank, s, lo, n + 1, med, -1) && Band(rank, s, m, hi + 1, med, 1)
    ensures n + 2 <= m
  {
    var k :| lo <= k <= hi && was[k] < |rank| && rank[was[k]] == med;
    RangePermutationSymmetric(was, s, lo, hi);
    var j := RangeSource(s, was, lo, hi, k);
    assert rank[s[j]] == med;
  }

  lemma AgainLeft(b: seq<Byte>, was: seq<nat>, s: seq<nat>, lo: int, hi: int, d: nat)
    requires RangePermutation(was, s, lo, hi) && InRange(s, |b|) && 0 <= lo && hi < |s| && hi - lo >= MAIN_SMALL
    requires N_RADIX <= d < MAX_DEPTH && Shares(b, s, lo, hi, d + 1)
    ensures Left(b, was, s, Part(Segment(lo, hi), d), [Part(Segment(lo, hi), d + 1)])
  {
    hide Shares, Key, RangePermutation;
    var inner := [Part(Segment(lo, hi), d + 1)];
    var t := Segments(inner);
    forall x, y | lo <= x < y <= hi ensures Together(t, x, y) {
      assert t[0].lo <= x && y <= t[0].hi;
    }
  }

  lemma ThreeLeft(b: seq<Byte>, was: seq<nat>, s: seq<nat>, lo: int, hi: int, d: nat, inner: seq<Part>)
    requires RangePermutation(was, s, lo, hi) && InRange(s, |b|) && 0 <= lo && hi < |s|
    requires SortedBut(Gather(Keys(b), s), lo, hi, Segments(inner))
    requires PartsOk(b, s, inner) && Disjoint(Segments(inner)) && Within(Segments(inner), lo, hi) && Three(Part(Segment(lo, hi), d), inner)
    ensures Left(b, was, s, Part(Segment(lo, hi), d), inner)
  {
  }

  lemma SortedLeft(b: seq<Byte>, was: seq<nat>, s: seq<nat>, p: Part)
    requires RangePermutation(was, s, p.seg.lo, p.seg.hi) && InRange(s, |b|) && 0 <= p.seg.lo && p.seg.hi < |s|
    requires Sorted(Keys(b), s, p.seg.lo, p.seg.hi)
    ensures Left(b, was, s, p, [])
  {
    SortedIsSortedBut(Keys(b), s, p.seg.lo, p.seg.hi);
    assert Segments([]) == [];
  }

  ghost predicate StackIs(stackLo: seq<int>, stackHi: seq<int>, stackD: seq<nat>, todo: seq<Part>) {
    && |todo| <= |stackLo| && |todo| <= |stackHi| && |todo| <= |stackD|
    && forall i :: 0 <= i < |todo| ==> todo[i] == Part(Segment(stackLo[i], stackHi[i]), stackD[i])
  }

  lemma TopIs(stackLo: seq<int>, stackHi: seq<int>, stackD: seq<nat>, todo: seq<Part>)
    requires StackIs(stackLo, stackHi, stackD, todo) && |todo| > 0
    ensures |todo| <= |stackLo| && |todo| <= |stackHi| && |todo| <= |stackD|
    ensures var sp := |todo| - 1; todo[sp] == Part(Segment(stackLo[sp], stackHi[sp]), stackD[sp])
    ensures StackIs(stackLo, stackHi, stackD, todo[..|todo| - 1])
  {
  }

  method PushAll(stackLo: array<int>, stackHi: array<int>, stackD: array<nat>, sp0: nat, inner: seq<Part>, ghost rest: seq<Part>) returns (sp: nat)
    requires stackLo != stackHi && sp0 == |rest| && sp0 + |inner| <= stackLo.Length == stackHi.Length == stackD.Length
    requires StackIs(stackLo[..], stackHi[..], stackD[..], rest)
    requires stackD as object != stackLo && stackD as object != stackHi
    modifies stackLo, stackHi, stackD
    ensures sp == sp0 + |inner| && StackIs(stackLo[..], stackHi[..], stackD[..], rest + inner)
  {
    sp := sp0;
    var i := 0;
    assert rest + inner[..0] == rest;
    while i < |inner|
      invariant i <= |inner| && sp == sp0 + i && StackIs(stackLo[..], stackHi[..], stackD[..], rest + inner[..i])
    {
      stackLo[sp], stackHi[sp], stackD[sp] := inner[i].seg.lo, inner[i].seg.hi, inner[i].d;
      sp := sp + 1;
      i := i + 1;
    }
    assert inner[..i] == inner;
  }

  lemma StandingTop(b: seq<Byte>, was: seq<nat>, s: seq<nat>, lo: int, hi: int, todo: seq<Part>)
    requires Standing(b, was, s, lo, hi, todo) && |todo| > 0
    ensures InRange(s, |b|) && |s| == |was| && |todo| < 98
    ensures var p := todo[|todo| - 1];
            && 0 <= p.seg.lo <= p.seg.hi + 1 && p.seg.hi < |s| && p.seg.hi - p.seg.lo < MAX_BLOCK
            && N_RADIX <= p.d <= MAX_DEPTH && Shares(b, s, p.seg.lo, p.seg.hi, p.d)
  {
    hide Key;
    assert PartOk(b, s, todo[|todo| - 1]);
    assert Segments(todo)[|todo| - 1] == todo[|todo| - 1].seg;
  }

  lemma StandingStarts(b: seq<Byte>, s: seq<nat>, lo: int, hi: int)
    requires 0 <= lo <= hi < |s| && hi - lo < MAX_BLOCK && InRange(s, |b|) && Shares(b, s, lo, hi, N_RADIX)
    ensures Standing(b, s, s, lo, hi, [Part(Segment(lo, hi), N_RADIX)]) && Effort([Part(Segment(lo, hi), N_RADIX)]) >= 0
  {
    hide Shares, Key;
    var todo := [Part(Segment(lo, hi), N_RADIX)];
    var t := Segments(todo);
    assert Pow2(0) == 1;
    forall x, y | lo <= x < y <= hi ensures Together(t, x, y) {
      assert t[0].lo <= x && y <= t[0].hi;
    }
    EffortPositive(todo);
  }

  lemma StandingEnds(b: seq<Byte>, was: seq<nat>, s: seq<nat>, lo: int, hi: int)
    requires Standing(b, was, s, lo, hi, [])
    ensures RangePermutation(was, s, lo, hi) && InRange(s, |b|) && 0 <= lo && hi < |s| && Sorted(Keys(b), s, lo, hi)
  {
    assert Segments([]) == [];
    SortedIsSortedBut(Keys(b), s, lo, hi);
  }

  lemma StandingKeeps(b: seq<Byte>, was: seq<nat>, before: seq<nat>, after: seq<nat>, lo: int, hi: int, todo: seq<Part>)
    requires Standing(b, was, before, lo, hi, todo) && |todo| > 0
    requires RangePermutation(before, after, todo[|todo| - 1].seg.lo, todo[|todo| - 1].seg.hi)
    ensures RangePermutation(was, after, lo, hi)
  {
    hide Shares, Key;
    assert Segments(todo)[|todo| - 1] == todo[|todo| - 1].seg;
    var p := todo[|todo| - 1].seg;
    RangeChain(was, before, after, lo, hi, p.lo, p.hi);
  }

  /** Sorts a small or deep segment, splits another; abandoned if the budget runs out. */
  method SortPart(ptr: array<nat>, block: array<nat>, quadrant: array<nat>, nblock: nat, lo: int, hi: int, d: nat, budget_: int, ghost b: seq<Byte>)
    returns (inner: seq<Part>, budget: int, abandoned: bool)
    requires ptr != block && ptr != quadrant && nblock == |b| && BlockIs(b, block[..]) && QuadOk(b, quadrant[..])
    requires 0 <= lo <= hi + 1 && hi < ptr.Length && hi - lo < MAX_BLOCK && N_RADIX <= d <= MAX_DEPTH
    requires InRange(ptr[..], nblock) && Shares(b, ptr[..], lo, hi, d)
    modifies ptr
    ensures budget <= budget_ && RangePermutation(old(ptr[..]), ptr[..], lo, hi) && InRange(ptr[..], nblock)
    ensures abandoned ==> budget < 0
    ensures !abandoned ==> Left(b, old(ptr[..]), ptr[..], Part(Segment(lo, hi), d), inner)
  {
    hide Key, Keys, BlockIs, QuadOk, Shares, InRange, RangePermutation, Sorted, Left;
    ghost var before := ptr[..];
    if hi - lo < MAIN_SMALL || d > MAIN_DEEP {
      inner := [];
      budget := MainSimpleSort(ptr, block, quadrant, nblock, lo, hi, d, budget_, b);
      abandoned := budget < 0;
      if !abandoned {
        SortedLeft(b, before, ptr[..], Part(Segment(lo, hi), d));
      }
    } else {
      inner := SplitPart(ptr, block, nblock, lo, hi, d, b);
      budget, abandoned := budget_, false;
      LeftRange(b, before, ptr[..], Part(Segment(lo, hi), d), inner);
    }
  }

  lemma LeftRange(b: seq<Byte>, before: seq<nat>, after: seq<nat>, s: Part, inner: seq<Part>)
    requires Left(b, before, after, s, inner)
    ensures RangePermutation(before, after, s.seg.lo, s.seg.hi) && InRange(after, |b|)
  {
  }

  /** Takes a segment from the stack, and puts what it leaves to do on it. */
  method Turn(ptr: array<nat>, block: array<nat>, quadrant: array<nat>, nblock: nat, stackLo: array<int>, stackHi: array<int>, stackD: array<nat>,
              sp_: nat, budget_: int, ghost b: seq<Byte>, ghost was: seq<nat>, ghost loSt: int, ghost hiSt: int, ghost todo: seq<Part>)
    returns (sp: nat, budget: int, abandoned: bool, ghost next: seq<Part>)
    requires ptr != block && ptr != quadrant && nblock == |b| && BlockIs(b, block[..]) && QuadOk(b, quadrant[..])
    requires stackLo != stackHi && stackD != ptr && stackD != block && stackD != quadrant
    requires stackLo as object !in {stackD, ptr, block, quadrant} && stackHi as object !in {stackD, ptr, block, quadrant}
    requires stackLo.Length == stackHi.Length == stackD.Length == STACK_SIZE && sp_ == |todo| > 0
    requires StackIs(stackLo[..], stackHi[..], stackD[..], todo) && Standing(b, was, ptr[..], loSt, hiSt, todo)
    modifies ptr, stackLo, stackHi, stackD
    ensures budget <= budget_ && (abandoned ==> budget < 0 && RangePermutation(was, ptr[..], loSt, hiSt) && InRange(ptr[..], nblock))
    ensures !abandoned ==> sp == |next| && StackIs(stackLo[..], stackHi[..], stackD[..], next)
    ensures !abandoned ==> Standing(b, was, ptr[..], loSt, hiSt, next) && 0 <= Effort(next) < Effort(todo)
  {
    hide Key, Keys, BlockIs, QuadOk, Shares, InRange, RangePermutation, Sorted, Standing, StackIs, Left, Effort;
    ghost var before, rest := ptr[..], todo[..|todo| - 1];
    next := todo;
    StandingTop(b, was, before, loSt, hiSt, todo);
    TopIs(stackLo[..], stackHi[..], stackD[..], todo);
    assert sp_ < STACK_SIZE - 2;
    sp := sp_ - 1;
    var inner;
    inner, budget, abandoned := SortPart(ptr, block, quadrant, nblock, stackLo[sp], stackHi[sp], stackD[sp], budget_, b);
    if abandoned {
      StandingKeeps(b, was, before, ptr[..], loSt, hiSt, todo);
      return;
    }
    RoundStands(b, was, before, ptr[..], loSt, hiSt, todo, inner);
    next := rest + inner;
    RoomLeft(b, was, ptr[..], loSt, hiSt, next);
    sp := PushAll(stackLo, stackHi, stackD, sp, inner, rest);
  }

  /**
   * Sorts ptr[loSt..hiSt], whose rotations share two characters, unless the budget runs out. The stack of a
   * hundred never gets more than a third full.
   */
  method MainQSort3(ptr: array<nat>, block: array<nat>, quadrant: array<nat>, nblock: nat, loSt: int, hiSt: int, budget_: int, ghost b: seq<Byte>)
    returns (budget: int)
    requires ptr != block && ptr != quadrant && nblock == |b| && BlockIs(b, block[..]) && QuadOk(b, quadrant[..])
    requires 0 <= loSt <= hiSt < ptr.Length && hiSt - loSt < MAX_BLOCK && InRange(ptr[..], nblock) && Shares(b, ptr[..], loSt, hiSt, N_RADIX)
    modifies ptr
    ensures budget <= budget_ && RangePermutation(old(ptr[..]), ptr[..], loSt, hiSt) && InRange(ptr[..], nblock)
    ensures budget >= 0 ==> Sorted(Keys(b), ptr[..], loSt, hiSt)
  {
    hide Key, Keys, BlockIs, QuadOk, Shares, InRange, RangePermutation, Sorted, Standing, StackIs, Left, Effort;
    var stackLo, stackHi, stackD := new int[STACK_SIZE], new int[STACK_SIZE], new nat[STACK_SIZE];
    ghost var was := ptr[..];
    budget := budget_;
    StackStarts(stackLo[..], stackHi[..], stackD[..]);
    var sp := PushAll(stackLo, stackHi, stackD, 0, [Part(Segment(loSt, hiSt), N_RADIX)], []);
    ghost var todo: seq<Part> := [Part(Segment(loSt, hiSt), N_RADIX)];
    assert [] + todo == todo;
    StandingStarts(b, was, loSt, hiSt);
    while sp > 0
      invariant |todo| == sp && StackIs(stackLo[..], stackHi[..], stackD[..], todo) && budget <= budget_
      invariant Standing(b, was, ptr[..], loSt, hiSt, todo) && Effort(todo) >= 0
      invariant fresh(stackLo) && fresh(stackHi) && fresh(stackD)
      decreases Effort(todo)
    {
      var abandoned;
      sp, budget, abandoned, todo := Turn(ptr, block, quadrant, nblock, stackLo, stackHi, stackD, sp, budget, b, was, loSt, hiSt, todo);
      if abandoned { return; }
    }
    assert todo == [];
    StandingEnds(b, was, ptr[..], loSt, hiSt);
  }

  lemma StackStarts(stackLo: seq<int>, stackHi: seq<int>, stackD: seq<nat>)
    ensures StackIs(stackLo, stackHi, stackD, [])
  {
  }

  lemma RoomLeft(b: seq<Byte>, was: seq<nat>, s: seq<nat>, lo: int, hi: int, todo: seq<Part>)
    requires Standing(b, was, s, lo, hi, todo)
    ensures |todo| <= 34
  {
  }
}

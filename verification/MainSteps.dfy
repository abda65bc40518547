/** The first two steps of the main sort: sorting some small buckets, and synthesising the others. */
module MainSteps {
  import opened Permutations
  import opened Rotations
  import opened SegmentSort
  import opened SegmentSortStack
  import opened MainCompare
  import opened MainSimple
  import opened MainQuick
  import opened MainBuckets
  import opened MainWalk
  import opened MainCopy
  import opened MainScan

  // ---- The table of small buckets ----

  /** Set in an entry when its bucket is sorted. */
  const SETMASK := 0x20_0000

  predicate Flagged(w: nat) {
    (w / SETMASK) % 2 == 1
  }

  /** The entry without its mark. */
  function Cleared(w: nat): nat {
    if Flagged(w) then w - SETMASK else w
  }

  /** The entry with its mark. */
  function Marked(w: nat): (m: nat)
    ensures Cleared(m) == Cleared(w) && (w < 2 * SETMASK ==> Flagged(m))
  {
    if Flagged(w) then w else w + SETMASK
  }

  /** Every entry is the start of its bucket, marked or not. */
  ghost predicate Starts(b: seq<Byte>, ftab: seq<nat>) {
    |ftab| == PAIRS + 1 && forall v :: 0 <= v <= PAIRS ==> Cleared(ftab[v]) == Start(b, v) && ftab[v] < 2 * SETMASK
  }

  lemma StartsAt(b: seq<Byte>, ftab: seq<nat>, v: nat)
    requires Starts(b, ftab) && v <= PAIRS
    ensures |ftab| == PAIRS + 1 && Cleared(ftab[v]) == Start(b, v) && ftab[v] < 2 * SETMASK
  {
  }

  lemma StartsMarked(b: seq<Byte>, ftab: seq<nat>, v: nat)
    requires Starts(b, ftab) && v <= PAIRS
    ensures |ftab| == PAIRS + 1 && Starts(b, ftab[v := Marked(ftab[v])]) && Flagged(Marked(ftab[v]))
  {
  }

  lemma StartsInitially(b: seq<Byte>, ftab: seq<nat>)
    requires |ftab| == PAIRS + 1 && |b| < SETMASK && forall v :: 0 <= v <= PAIRS ==> ftab[v] == Start(b, v)
    ensures Starts(b, ftab) && forall v :: 0 <= v <= PAIRS ==> !Flagged(ftab[v])
  {
    hide Start;
    forall v | 0 <= v <= PAIRS ensures Start(b, v) <= |b| {
      StartEnds(b, v);
    }
  }

  // ---- What holds between the steps ----

  /** Marked buckets are sorted. */
  ghost predicate MarksTrue(b: seq<Byte>, s: seq<nat>, ftab: seq<nat>) {
    |ftab| == PAIRS + 1 && forall v :: 0 <= v < PAIRS && Flagged(ftab[v]) ==> InOrder(b, s, v)
  }

  /** Of a character that is done all buckets are marked. */
  ghost predicate DoneMarked(ftab: seq<nat>, done: seq<bool>) {
    && |ftab| == PAIRS + 1 && |done| == 256
    && forall c, t :: 0 <= c < 256 && 0 <= t < 256 && done[c] ==> Flagged(ftab[Pair(c, t)]) && Flagged(ftab[Pair(t, c)])
  }

  ghost predicate Standing(b: seq<Byte>, s: seq<nat>, ftab: seq<nat>, done: seq<bool>) {
    InPairs(b, s) && Starts(b, ftab) && MarksTrue(b, s, ftab) && DoneMarked(ftab, done)
  }

  lemma StandingMarks(b: seq<Byte>, s: seq<nat>, ftab: seq<nat>, done: seq<bool>, v: nat)
    requires Standing(b, s, ftab, done) && v < PAIRS && InOrder(b, s, v)
    ensures |ftab| == PAIRS + 1 && Standing(b, s, ftab[v := Marked(ftab[v])], done) && Flagged(Marked(ftab[v]))
  {
    hide InOrder, Start, InPairs;
    StartsMarked(b, ftab, v);
  }

  // ---- Sorting one small bucket ----

  /** What is rearranged within one bucket stays in it, and the other buckets are as they were. */
  lemma BucketRearranged(b: seq<Byte>, s: seq<nat>, t: seq<nat>, v: nat)
    requires InPairs(b, s) && v < PAIRS && RangePermutation(s, t, Start(b, v), Start(b, v + 1) - 1)
    ensures InPairs(b, t) && forall u :: u != v && InOrder(b, s, u) ==> InOrder(b, t, u)
  {
    hide Key, Keys, Start;
    RangeInRange(s, t, Start(b, v), Start(b, v + 1) - 1, |b|);
    StartEnds(b, v + 1);
    forall k | 0 <= k < |b| ensures In(b, Pairs(b)[t[k]], k) {
      if In(b, v, k) {
        InPairsAt(b, s, k);
        BucketSource(b, s, t, v, k);
      }
    }
    forall u | u != v && InOrder(b, s, u) ensures InOrder(b, t, u) {
      forall k | 0 <= k < |b| && In(b, u, k) ensures t[k] == s[k] {
        InOne(b, u, v, k);
      }
    }
  }

  lemma BucketSource(b: seq<Byte>, s: seq<nat>, t: seq<nat>, v: nat, k: nat)
    requires InPairs(b, s) && RangePermutation(s, t, Start(b, v), Start(b, v + 1) - 1) && k < |b| && In(b, v, k) && Start(b, v + 1) <= |b|
    ensures |t| == |b| && t[k] < |b| && Pairs(b)[t[k]] == v
  {
    hide Start, Pairs;
    var m := RangeSource(s, t, Start(b, v), Start(b, v + 1) - 1, k);
    InPairsAt(b, s, m);
    InOne(b, v, Pairs(b)[s[m]], m);
  }

  /** Rotations in one bucket share two characters. */
  lemma BucketShares(b: seq<Byte>, s: seq<nat>, v: nat)
    requires InPairs(b, s) && v < PAIRS && |b| >= 2
    ensures Shares(b, s, Start(b, v), Start(b, v + 1) - 1, N_RADIX) && Start(b, v) <= Start(b, v + 1) <= |s| == |b|
  {
    hide Key, Start;
    StartEnds(b, v + 1);
    StartMonotone(b, v, v + 1);
    forall k | Start(b, v) <= k <= Start(b, v + 1) - 1 ensures s[k] < |b| && Key(b, s[k], 2) == v {
      InPairsAt(b, s, k);
      InOne(b, v, Pairs(b)[s[k]], k);
    }
  }

  lemma SortedInOrder(b: seq<Byte>, s: seq<nat>, v: nat)
    requires InRange(s, |b|) && Start(b, v + 1) <= |s| && Sorted(Keys(b), s, Start(b, v), Start(b, v + 1) - 1)
    ensures InOrder(b, s, v)
  {
    hide Key, Start, Keys;
  }

  lemma SmallInOrder(b: seq<Byte>, s: seq<nat>, v: nat)
    requires InRange(s, |b|) && Start(b, v + 1) <= Start(b, v) + 1
    ensures InOrder(b, s, v)
  {
    hide Key, Start, Keys;
  }

  /** Sorts bucket v unless that has been done, and marks it. */
  method SortBucket(ptr: array<nat>, block: array<nat>, quadrant: array<nat>, ftab: array<nat>, nblock: nat, v: nat, budget_: int,
                    ghost b: seq<Byte>, ghost done: seq<bool>)
    returns (budget: int)
    requires ptr != block && ptr != quadrant && ptr != ftab && block != ftab && quadrant != ftab
    requires nblock == |b| <= MAX_BLOCK && BlockIs(b, block[..]) && QuadOk(b, quadrant[..]) && v < PAIRS && budget_ >= 0
    requires Standing(b, ptr[..], ftab[..], done)
    modifies ptr, ftab
    ensures budget >= 0 ==> Standing(b, ptr[..], ftab[..], done) && ftab[..] == old(ftab[..])[v := Marked(old(ftab[v]))]
    ensures budget >= 0 ==> Flagged(ftab[v])
    ensures InRange(ptr[..], nblock)
  {
    hide BlockIs, QuadOk, Start, Starts, InOrder, InPairs, RangePermutation, Sorted, Keys, Key, Pairs, DoneMarked, Shares, Flagged, Cleared;
    ghost var was := ptr[..];
    BlockSize(b, block[..]);
    StartsAt(b, ftab[..], v);
    StartsAt(b, ftab[..], v + 1);
    BucketShares(b, was, v);
    InPairsLength(b, was);
    budget := budget_;
    assert ftab[..][v] == ftab[v] && ftab[..][v + 1] == ftab[v + 1];
    if !Flagged(ftab[v]) {
      var lo := Cleared(ftab[v]);
      var hi := Cleared(ftab[v + 1]) - 1;
      if hi > lo {
        budget := MainQSort3(ptr, block, quadrant, nblock, lo, hi, budget, b);
        if budget < 0 { return; }
        BucketRearranged(b, was, ptr[..], v);
        InPairsLength(b, ptr[..]);
        SortedInOrder(b, ptr[..], v);
      } else {
        SmallInOrder(b, was, v);
      }
    }
    StandingMarks(b, ptr[..], ftab[..], done, v);
    ghost var marks := ftab[..];
    ftab[v] := Marked(ftab[v]);
    assert ftab[..] == marks[v := Marked(marks[v])];
  }

  /** All small buckets [c, t] with t up to upto but c are marked. */
  ghost predicate RowMarked(ftab: seq<nat>, c: nat, upto: nat) {
    |ftab| == PAIRS + 1 && c < 256 && upto <= 256 && forall t :: 0 <= t < upto && t != c ==> Flagged(ftab[Pair(c, t)])
  }

  lemma RowMarkedStep(ftab: seq<nat>, c: nat, t: nat)
    requires RowMarked(ftab, c, t) && t < 256 && (t != c ==> Flagged(Marked(ftab[Pair(c, t)])))
    ensures RowMarked(if t == c then ftab else ftab[Pair(c, t) := Marked(ftab[Pair(c, t)])], c, t + 1)
  {
    hide Flagged;
  }

  /** Step 1: sorts the small buckets of a big one, but for the middle one. */
  method SortBuckets(ptr: array<nat>, block: array<nat>, quadrant: array<nat>, ftab: array<nat>, nblock: nat, ss: nat, budget_: int,
                     ghost b: seq<Byte>, ghost done: seq<bool>)
    returns (budget: int)
    requires ptr != block && ptr != quadrant && ptr != ftab && block != ftab && quadrant != ftab
    requires nblock == |b| <= MAX_BLOCK && BlockIs(b, block[..]) && QuadOk(b, quadrant[..]) && ss < 256 && budget_ >= 0
    requires Standing(b, ptr[..], ftab[..], done)
    modifies ptr, ftab
    ensures budget >= 0 ==> Standing(b, ptr[..], ftab[..], done) && RowMarked(ftab[..], ss, 256)
    ensures InRange(ptr[..], nblock)
  {
    hide BlockIs, QuadOk, Standing, Flagged, RowMarked, Cleared, Marked;
    budget := budget_;
    var j := 0;
    StandingLength(b, ptr[..], ftab[..], done);
    RowUnmarked(ftab[..], ss);
    while j <= 255
      invariant j <= 256 && budget >= 0 && Standing(b, ptr[..], ftab[..], done) && RowMarked(ftab[..], ss, j)
    {
      RowLength(ftab[..], ss, j);
      if j != ss {
        ghost var marks := ftab[..];
        budget := SortBucket(ptr, block, quadrant, ftab, nblock, Pair(ss, j), budget, b, done);
        if budget < 0 { return; }
        assert Flagged(Marked(marks[Pair(ss, j)]));
        RowMarkedStep(marks, ss, j);
      } else {
        RowMarkedStep(ftab[..], ss, j);
      }
      j := j + 1;
    }
    StandingLength(b, ptr[..], ftab[..], done);
  }

  lemma RowUnmarked(ftab: seq<nat>, c: nat)
    requires |ftab| == PAIRS + 1 && c < 256
    ensures RowMarked(ftab, c, 0)
  {
  }

  lemma RowLength(ftab: seq<nat>, c: nat, upto: nat)
    requires RowMarked(ftab, c, upto)
    ensures |ftab| == PAIRS + 1 && c < 256
  {
  }

  lemma StandingLength(b: seq<Byte>, s: seq<nat>, ftab: seq<nat>, done: seq<bool>)
    requires Standing(b, s, ftab, done)
    ensures |ftab| == PAIRS + 1 && |s| == |b| && |done| == 256 && InRange(s, |b|)
  {
  }

  // ---- Step 2 ----

  /** Where each bucket [t, c] starts and ends. */
  ghost predicate Bounds(b: seq<Byte>, c: nat, starts: seq<int>, ends: seq<int>) {
    && |starts| == |ends| == 256
    && forall t :: 0 <= t < 256 ==> starts[t] == Start(b, Pair(t, c)) && ends[t] == Start(b, Pair(t, c) + 1) - 1
  }

  lemma BoundsAt(b: seq<Byte>, c: nat, starts: seq<int>, ends: seq<int>, t: nat)
    requires Bounds(b, c, starts, ends) && t < 256 && c < 256
    ensures starts[t] == Start(b, Pair(t, c)) <= ends[t] + 1 == Start(b, Pair(t, c) + 1) <= |b|
  {
    StartMonotone(b, Pair(t, c), Pair(t, c) + 1);
    StartEnds(b, Pair(t, c) + 1);
  }

  method CopyBounds(ftab: array<nat>, ss: nat, ghost b: seq<Byte>) returns (copyStart: array<int>, copyEnd: array<int>)
    requires Starts(b, ftab[..]) && ss < 256
    ensures fresh(copyStart) && fresh(copyEnd) && copyStart != copyEnd && copyStart.Length == copyEnd.Length == 256
    ensures Bounds(b, ss, copyStart[..], copyEnd[..])
  {
    hide Starts, Start, Cleared;
    copyStart, copyEnd := new int[256], new int[256];
    StartsAt(b, ftab[..], 0);
    var j := 0;
    while j <= 255
      invariant j <= 256
      invariant forall t :: 0 <= t < j ==> copyStart[t] == Start(b, Pair(t, ss)) && copyEnd[t] == Start(b, Pair(t, ss) + 1) - 1
    {
      StartsAt(b, ftab[..], Pair(j, ss));
      StartsAt(b, ftab[..], Pair(j, ss) + 1);
      copyStart[j] := Cleared(ftab[Pair(j, ss)]);
      copyEnd[j] := Cleared(ftab[Pair(j, ss) + 1]) - 1;
      j := j + 1;
    }
  }

  lemma LeftingStarts(b: seq<Byte>, s: seq<nat>, c: nat, done: seq<bool>, starts: seq<int>, ends: seq<int>)
    requires InPairs(b, s) && c < 256 && ButMiddle(b, s, c) && |done| == 256 && Bounds(b, c, starts, ends)
    ensures Start(b, Pair(c, 0)) <= Start(b, Pair(c, c)) <= |s| == |b|
    ensures var x := LowPart(b, s, c); Firsts(b, Keys(b), c, x) && Lefting(b, s, s, c, done, starts, x, x, 0)
  {
    hide Key, Keys, Start, Pairs, InPairs, ButMiddle, Firsts, Walking, Untouched, Bounds;
    BoundsLength(b, c, starts, ends);
    LowFirsts(b, s, c);
    var x := LowPart(b, s, c);
    FirstsFacts(b, Keys(b), c, x);
    WalkStarts(b, Keys(b), c, x);
    UntouchedStarts(b, s, c, done);
    assert x[..0] == [];
    forall t | 0 <= t < 256 ensures StartsWith(b, s, Pair(t, c), starts[t], []) {
      BoundsAt(b, c, starts, ends, t);
    }
  }

  lemma BoundsLength(b: seq<Byte>, c: nat, starts: seq<int>, ends: seq<int>)
    requires Bounds(b, c, starts, ends)
    ensures |starts| == |ends| == 256
  {
  }

  lemma FirstsFacts(b: seq<Byte>, rank: seq<nat>, c: nat, x: seq<nat>)
    requires Firsts(b, rank, c, x)
    ensures InRange(x, |b|)
  {
  }

  lemma RightingStarts(b: seq<Byte>, s0: seq<nat>, s: seq<nat>, c: nat, done: seq<bool>, starts0: seq<int>, starts: seq<int>, ends: seq<int>,
                       xl: seq<nat>, low: seq<nat>)
    requires InPairs(b, s0) && c < 256 && ButMiddle(b, s0, c) && |done| == 256 && Bounds(b, c, starts0, ends)
    requires Lefting(b, s0, s, c, done, starts, xl, low, |low|)
    ensures Start(b, Pair(c, c) + 1) <= Start(b, Pair(c + 1, 0)) <= |s0|
    ensures var x := HighPart(b, s0, c); Firsts(b, Down(b), c, x) && Righting(b, s0, s, c, done, starts, ends, low, x, x, 0)
  {
    hide Key, Keys, Down, Start, Pairs, InPairs, ButMiddle, Firsts, Walking, Untouched, Bounds, Lefts;
    BoundsLength(b, c, starts0, ends);
    UntouchedLength(b, s0, s, c, done);
    HighFirsts(b, s0, c);
    var x := HighPart(b, s0, c);
    FirstsFacts(b, Down(b), c, x);
    WalkStarts(b, Down(b), c, x);
    assert x[..0] == [];
    forall t | 0 <= t < 256 ensures EndsWith(b, s, Pair(t, c), ends[t], []) {
      BoundsAt(b, c, starts0, ends, t);
    }
    forall i | 0 <= i < |x| ensures s[Start(b, Pair(c + 1, 0)) - 1 - i] == x[i] {
      HighStays(b, s0, s, c, done, Start(b, Pair(c + 1, 0)) - 1 - i);
    }
  }

  /** The part behind the middle is not written to. */
  lemma HighStays(b: seq<Byte>, s0: seq<nat>, s: seq<nat>, c: nat, done: seq<bool>, k: nat)
    requires InPairs(b, s0) && c < 256 && Untouched(b, s0, s, c, done) && k < |s0|
    requires Start(b, Pair(c, c) + 1) <= k < Start(b, Pair(c + 1, 0))
    ensures |s| == |s0| && s[k] == s0[k]
  {
    hide Start, Pairs, InPairs;
    HighAt(b, s0, c, k);
    InPairsAt(b, s0, k);
    assert Kept(b, s0, s, Pairs(b)[s0[k]]);
  }

  /** The rotation one step back. */
  method StepBack(p: nat, nblock: nat) returns (k: nat)
    requires p < nblock
    ensures k == Prev(nblock, p)
  {
    var back := p - 1;
    if back < 0 { back := back + nblock; }
    k := back;
  }

  lemma CharOf(b: seq<Byte>, block: seq<nat>, k: nat)
    requires BlockIs(b, block) && k < |b|
    ensures |b| <= |block| && block[k] == b[k]
  {
  }

  /** Reads big bucket ss from the left, and puts each rotation one step back into its place. */
  method ScanLeft(ptr: array<nat>, block: array<nat>, nblock: nat, ss: nat, from: nat, bigDone: array<bool>, copyStart: array<int>,
                  ghost b: seq<Byte>, ghost x: seq<nat>)
    returns (ghost low: seq<nat>)
    requires ptr != block && copyStart.Length == 256 == bigDone.Length && ss < 256 && nblock == |b| && BlockIs(b, block[..])
    requires !bigDone[ss] && from == Start(b, Pair(ss, 0)) && Ranking(b, Keys(b)) && Firsts(b, Keys(b), ss, x)
    requires Lefting(b, ptr[..], ptr[..], ss, bigDone[..], copyStart[..], x, x, 0)
    modifies ptr, copyStart
    ensures Lefting(b, old(ptr[..]), ptr[..], ss, bigDone[..], copyStart[..], x, low, |low|)
  {
    hide Key, Keys, Start, Ranking, Firsts, Lefting, BlockIs;
    ghost var s0, done := ptr[..], bigDone[..];
    low := x;
    ghost var m := 0;
    var j: nat := from;
    LeftingCount(b, s0, ptr[..], ss, done, copyStart[..], x, low, m);
    while j < copyStart[ss]
      invariant Lefting(b, s0, ptr[..], ss, done, copyStart[..], x, low, m)
      invariant j == from + m && copyStart[ss] == from + |low| <= nblock && m <= |low|
      decreases nblock - j
    {
      ghost var s, starts := ptr[..], copyStart[..];
      LeftStep(b, s0, s, ss, done, starts, x, low, m);
      var k := StepBack(ptr[j], nblock);
      CharOf(b, block[..], k);
      assert block[..][k] == block[k];
      var c1 := block[k];
      m := m + 1;
      if !bigDone[c1] {
        ptr[copyStart[c1]] := k;
        copyStart[c1] := copyStart[c1] + 1;
        low := if c1 == ss then low + [k] else low;
        assert ptr[..] == s[starts[c1] := k] && copyStart[..] == starts[c1 := starts[c1] + 1];
      }
      j := j + 1;
      LeftingCount(b, s0, ptr[..], ss, done, copyStart[..], x, low, m);
    }
  }

  /** Reads it from the right. */
  method ScanRight(ptr: array<nat>, block: array<nat>, nblock: nat, ss: nat, end: nat, bigDone: array<bool>, copyEnd: array<int>,
                   ghost starts: seq<int>, ghost b: seq<Byte>, ghost s0: seq<nat>, ghost xl: seq<nat>, ghost low: seq<nat>, ghost x: seq<nat>)
    returns (ghost high: seq<nat>)
    requires ptr != block && copyEnd.Length == 256 == bigDone.Length && ss < 256 && nblock == |b| && BlockIs(b, block[..])
    requires !bigDone[ss] && end == Start(b, Pair(ss + 1, 0)) && Ranking(b, Keys(b)) && Ranking(b, Down(b)) && Firsts(b, Down(b), ss, x)
    requires Walking(b, Keys(b), ss, xl, low, |low|)
    requires Righting(b, s0, ptr[..], ss, bigDone[..], starts, copyEnd[..], low, x, x, 0)
    modifies ptr, copyEnd
    ensures Righting(b, s0, ptr[..], ss, bigDone[..], starts, copyEnd[..], low, x, high, |high|)
  {
    hide Key, Keys, Down, Start, Ranking, Firsts, Righting, BlockIs, Walking;
    ghost var done := bigDone[..];
    high := x;
    ghost var m := 0;
    var j := end - 1;
    RightingCount(b, s0, ptr[..], ss, done, starts, copyEnd[..], low, x, high, m);
    while j > copyEnd[ss]
      invariant Righting(b, s0, ptr[..], ss, done, starts, copyEnd[..], low, x, high, m)
      invariant j == end - 1 - m && copyEnd[ss] == end - 1 - |high| >= -1 && m <= |high|
      decreases j
    {
      ghost var s, ends := ptr[..], copyEnd[..];
      RightStep(b, s0, s, ss, done, starts, ends, xl, low, x, high, m);
      var k := StepBack(ptr[j], nblock);
      CharOf(b, block[..], k);
      assert block[..][k] == block[k];
      var c1 := block[k];
      m := m + 1;
      if !bigDone[c1] {
        ptr[copyEnd[c1]] := k;
        copyEnd[c1] := copyEnd[c1] - 1;
        high := if c1 == ss then high + [k] else high;
        assert ptr[..] == s[ends[c1] := k] && copyEnd[..] == ends[c1 := ends[c1] - 1];
      }
      j := j - 1;
      RightingCount(b, s0, ptr[..], ss, done, starts, copyEnd[..], low, x, high, m);
    }
  }

  lemma LeftingWalk(b: seq<Byte>, s0: seq<nat>, s: seq<nat>, c: nat, done: seq<bool>, starts: seq<int>, x: seq<nat>, w: seq<nat>)
    requires Lefting(b, s0, s, c, done, starts, x, w, |w|)
    ensures Walking(b, Keys(b), c, x, w, |w|)
  {
  }

  /** Buckets that are not written stay sorted. */
  lemma UntouchedInOrder(b: seq<Byte>, s0: seq<nat>, s: seq<nat>, c: nat, done: seq<bool>, v: nat)
    requires InPairs(b, s) && Untouched(b, s0, s, c, done) && v < PAIRS && !Target(c, done, v) && InOrder(b, s0, v)
    ensures InOrder(b, s, v)
  {
    hide Key, Keys, Start, Pairs;
    assert Kept(b, s0, s, v);
  }

  /** Step 2: synthesises the buckets [t, ss] of all characters t that are not done. */
  method Synthesise(ptr: array<nat>, block: array<nat>, ftab: array<nat>, nblock: nat, ss: nat, bigDone: array<bool>, ghost b: seq<Byte>)
    requires ptr != block && ptr != ftab && bigDone.Length == 256 && ss < 256 && nblock == |b| && BlockIs(b, block[..]) && !bigDone[ss]
    requires InPairs(b, ptr[..]) && Starts(b, ftab[..]) && ButMiddle(b, ptr[..], ss)
    modifies ptr
    ensures InPairs(b, ptr[..]) && Untouched(b, old(ptr[..]), ptr[..], ss, bigDone[..])
    ensures forall t :: 0 <= t < 256 && !bigDone[t] ==> InOrder(b, ptr[..], Pair(t, ss))
  {
    hide Key, Keys, Down, Start, Pairs, InPairs, ButMiddle, BlockIs, Starts, Ranking, Firsts, Walking, Lefting, Righting, InOrder, Untouched, Bounds, Cleared;
    ghost var s0, done := ptr[..], bigDone[..];
    assert done[ss] == bigDone[ss];
    var copyStart, copyEnd := CopyBounds(ftab, ss, b);
    ghost var starts0, ends0 := copyStart[..], copyEnd[..];
    KeysRank(b);
    StartsAt(b, ftab[..], Pair(ss, 0));
    StartsAt(b, ftab[..], Pair(ss + 1, 0));
    LeftingStarts(b, s0, ss, done, starts0, ends0);
    ghost var xl := LowPart(b, s0, ss);
    ghost var low := ScanLeft(ptr, block, nblock, ss, Cleared(ftab[Pair(ss, 0)]), bigDone, copyStart, b, xl);
    RightingStarts(b, s0, ptr[..], ss, done, starts0, copyStart[..], ends0, xl, low);
    LeftingWalk(b, s0, ptr[..], ss, done, copyStart[..], xl, low);
    ghost var xh := HighPart(b, s0, ss);
    ghost var high := ScanRight(ptr, block, nblock, ss, Cleared(ftab[Pair(ss + 1, 0)]), bigDone, copyEnd, copyStart[..], b, s0, xl, low, xh);
    ScannedIs(b, s0, ptr[..], ss, done, copyStart[..], copyEnd[..], xl, low, xh, high);
    ScansDone(b, s0, ptr[..], ss, done, copyStart[..], copyEnd[..], xl, low, xh, high);
    assert copyStart[ss] - 1 == copyEnd[ss] || (copyStart[ss] == 0 && copyEnd[ss] == nblock - 1);
    forall t | 0 <= t < 256 && !bigDone[t] ensures InOrder(b, ptr[..], Pair(t, ss)) {
      assert !done[t];
    }
  }

  lemma ScannedIs(b: seq<Byte>, s0: seq<nat>, s: seq<nat>, c: nat, done: seq<bool>, starts: seq<int>, ends: seq<int>,
                  xl: seq<nat>, low: seq<nat>, xh: seq<nat>, high: seq<nat>)
    requires Ranking(b, Keys(b)) && Ranking(b, Down(b)) && Firsts(b, Keys(b), c, xl) && Firsts(b, Down(b), c, xh)
    requires Walking(b, Keys(b), c, xl, low, |low|) && Righting(b, s0, s, c, done, starts, ends, low, xh, high, |high|)
    ensures Scanned(b, s0, s, c, done, starts, ends, xl, low, xh, high)
  {
  }
}

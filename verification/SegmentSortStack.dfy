/** The explicit-stack quicksort of the fallback sort. */
module SegmentSortStack {
  import opened Permutations
  import opened SegmentSort
  import opened HeaderBits

  const MAX_BLOCK := 900000

  lemma KeysRearranged(rank: seq<nat>, s: seq<nat>, t: seq<nat>, lo: int, hi: int)
    requires RangePermutation(s, t, lo, hi) && 0 <= lo && hi < |s|
    requires InRange(s, |rank|) && InRange(t, |rank|)
    ensures Rearranged(Gather(rank, s), Gather(rank, t), lo, hi)
  {
    var key, key' := Gather(rank, s), Gather(rank, t);
    forall k | 0 <= k < |key| && lo <= k <= hi ensures TakenFrom(key, key'[k], lo, hi) {
      var m := RangeSource(s, t, lo, hi, k);
      assert key'[k] == key[m];
    }
  }

  lemma SortedIsSortedBut(rank: seq<nat>, s: seq<nat>, lo: int, hi: int)
    requires InRange(s, |rank|) && 0 <= lo && hi < |s|
    ensures Sorted(rank, s, lo, hi) <==> SortedBut(Gather(rank, s), lo, hi, [])
  {
    var key := Gather(rank, s);
    assert forall a, b :: lo <= a < b <= hi ==> !Together([], a, b);
    if Sorted(rank, s, lo, hi) {
      forall a, b | lo <= a < b <= hi ensures key[a] <= key[b] {
        assert rank[s[a]] <= rank[s[b]];
      }
    }
    if SortedBut(key, lo, hi, []) {
      forall a, b | lo <= a < b <= hi ensures rank[s[a]] <= rank[s[b]] {
        assert key[a] <= key[b] || Together([], a, b);
      }
    }
  }

  lemma BandsAreSortedBut(rank: seq<nat>, s: seq<nat>, lo: int, hi: int, n: int, m: int, med: nat)
    requires InRange(s, |rank|) && 0 <= lo && hi < |s| && lo - 1 <= n < m <= hi + 1
    requires Band(rank, s, lo, n + 1, med, -1) && Band(rank, s, n + 1, m, med, 0) && Band(rank, s, m, hi + 1, med, 1)
    ensures SortedBut(Gather(rank, s), lo, hi, [Segment(lo, n), Segment(m, hi)])
    ensures SortedBut(Gather(rank, s), lo, hi, [Segment(m, hi), Segment(lo, n)])
  {
    var key := Gather(rank, s);
    var t, t' := [Segment(lo, n), Segment(m, hi)], [Segment(m, hi), Segment(lo, n)];
    forall a, b | lo <= a < b <= hi
      ensures key[a] <= key[b] || Together(t, a, b)
      ensures key[a] <= key[b] || Together(t', a, b)
    {
      if b <= n {
        assert t[0].lo <= a && b <= t[0].hi && t'[1].lo <= a && b <= t'[1].hi;
      } else if m <= a {
        assert t[1].lo <= a && b <= t[1].hi && t'[0].lo <= a && b <= t'[0].hi;
      } else {
        assert key[a] == rank[s[a]] && key[b] == rank[s[b]];
      }
    }
  }

  /** Splits a segment around one of its own ranks, leaving two strictly smaller segments. */
  method SplitSegment(fmap: array<nat>, eclass: array<nat>, lo: int, hi: int, p: int)
    returns (uniform: bool, n: int, m: int)
    requires fmap != eclass && InRange(fmap[..], eclass.Length)
    requires 0 <= lo <= p <= hi < fmap.Length
    modifies fmap
    ensures RangePermutation(old(fmap[..]), fmap[..], lo, hi) && InRange(fmap[..], eclass.Length)
    ensures uniform ==> Sorted(eclass[..], fmap[..], lo, hi)
    ensures !uniform ==>
              && lo - 1 <= n && n + 2 <= m <= hi + 1
              && SortedBut(Gather(eclass[..], fmap[..]), lo, hi, [Segment(lo, n), Segment(m, hi)])
              && SortedBut(Gather(eclass[..], fmap[..]), lo, hi, [Segment(m, hi), Segment(lo, n)])
  {
    var med := eclass[fmap[p]];
    ghost var was, rank := fmap[..], eclass[..];
    assert eclass[0..] == rank;
    var ltLo, unLo, unHi, gtHi := Split(fmap, eclass, 0, lo, hi, med);
    uniform, n, m := gtHi < ltLo, 0, 0;
    if uniform { return; }
    ghost var mid := fmap[..];
    n, m := GatherEqual(fmap, eclass, 0, lo, hi, med, ltLo, unLo, unHi, gtHi);
    BandsAreSortedBut(rank, fmap[..], lo, hi, n, m, med);
    RangeChain(was, mid, fmap[..], lo, hi, lo, hi);
    RangePermutationSymmetric(was, fmap[..], lo, hi);
    ghost var k := RangeSource(fmap[..], was, lo, hi, p);
    assert rank[fmap[..][k]] == med;
  }

  lemma RangePermutationSymmetric(s: seq<nat>, t: seq<nat>, lo: int, hi: int)
    requires RangePermutation(s, t, lo, hi)
    ensures RangePermutation(t, s, lo, hi)
  {
  }

  function Size(s: Segment): int {
    s.hi - s.lo + 1
  }

  ghost function Weight(todo: seq<Segment>): int {
    if todo == [] then 0 else Weight(todo[..|todo| - 1]) + 2 * Size(todo[|todo| - 1]) + 1
  }

  lemma {:induction false} WeightNonNegative(todo: seq<Segment>, lo: int, hi: int)
    requires Within(todo, lo, hi)
    ensures Weight(todo) >= |todo|
  {
    if todo != [] {
      WeightNonNegative(todo[..|todo| - 1], lo, hi);
    }
  }

  lemma WeightPush(todo: seq<Segment>, s: Segment, t: Segment)
    ensures Weight(todo + [s, t]) == Weight(todo) + 2 * Size(s) + 2 * Size(t) + 2
  {
    assert (todo + [s, t])[..|todo| + 1] == todo + [s];
    assert (todo + [s])[..|todo|] == todo;
  }

  /** The higher a segment lies on the stack, the smaller it is: each level halves. */
  ghost predicate Halving(todo: seq<Segment>, total: nat) {
    forall i :: 0 <= i < |todo| ==> Size(todo[i]) * Pow2(i) <= total
  }

  lemma {:induction false} Pow2Monotone(a: nat, b: nat)
    requires a <= b
    ensures Pow2(a) <= Pow2(b)
    decreases b
  {
    if a < b {
      Pow2Monotone(a, b - 1);
    }
  }

  lemma ProductBound(a: nat, b: nat, c: nat, d: nat)
    requires a >= c && b >= d
    ensures a * b >= c * d
  {
    assert a * b >= a * d && a * d >= c * d;
  }

  /** A segment big enough to be split lies below level 17. */
  lemma DepthBound(size: nat, level: nat)
    requires size * Pow2(level) <= MAX_BLOCK && size > SMALL_THRESHOLD
    ensures level < 17
  {
    assert Pow2(8) == 256;
    assert Pow2(16) == 65536;
    if level >= 17 {
      Pow2Monotone(17, level);
      ProductBound(size, Pow2(level), 11, 131072);
    }
  }

  lemma HalvingStep(size: nat, small: nat, level: nat, total: nat)
    requires size * Pow2(level) <= total && 2 * small <= size
    ensures small * Pow2(level + 1) <= total
  {
    assert small * Pow2(level + 1) == (2 * small) * Pow2(level);
    assert (2 * small) * Pow2(level) <= size * Pow2(level);
  }

  ghost predicate StackHolds(stackLo: seq<int>, stackHi: seq<int>, todo: seq<Segment>) {
    && |todo| <= |stackLo| && |todo| <= |stackHi|
    && forall i :: 0 <= i < |todo| ==> todo[i] == Segment(stackLo[i], stackHi[i])
  }

  /** What the stack of pending segments promises between two rounds. */
  ghost predicate Pending(todo: seq<Segment>, lo: int, hi: int, total: nat) {
    && Disjoint(todo) && Within(todo, lo, hi) && Halving(todo, total) && |todo| <= 18
  }

  /** Replacing the last pending segment by two smaller ones inside it. */
  ghost predicate Halves(s: Segment, big: Segment, small: Segment) {
    && Size(s) > SMALL_THRESHOLD
    && s.lo <= big.lo <= big.hi + 1 <= s.hi + 1 && s.lo <= small.lo <= small.hi + 1 <= s.hi + 1
    && Size(small) <= Size(big) && Size(small) + Size(big) < Size(s)
    && (big.hi < small.lo || small.hi < big.lo)
  }

  lemma DisjointSplit(todo: seq<Segment>, lo: int, hi: int, big: Segment, small: Segment)
    requires |todo| > 0 && Halves(todo[|todo| - 1], big, small) && Disjoint(todo) && Within(todo, lo, hi)
    ensures Disjoint(todo[..|todo| - 1] + [big, small]) && Within(todo[..|todo| - 1] + [big, small], lo, hi)
  {
    var level := |todo| - 1;
    var s, next := todo[level], todo[..level] + [big, small];
    forall i, j | 0 <= i < j < |next| ensures next[i].hi < next[j].lo || next[j].hi < next[i].lo {
      if i < level {
        assert todo[i].hi < s.lo || s.hi < todo[i].lo;
        assert j < level ==> todo[i].hi < todo[j].lo || todo[j].hi < todo[i].lo;
      }
    }
  }

  lemma HalvingSplit(todo: seq<Segment>, total: nat, big: Segment, small: Segment)
    requires |todo| > 0 && Halves(todo[|todo| - 1], big, small) && Halving(todo, total)
    requires Size(big) >= 0 && Size(small) >= 0
    ensures Halving(todo[..|todo| - 1] + [big, small], total)
  {
    var level := |todo| - 1;
    var s, next := todo[level], todo[..level] + [big, small];
    HalvingStep(Size(s), Size(small), level, total);
    ProductBound(Size(s), Pow2(level), Size(big), Pow2(level));
    assert next[level] == big && next[level + 1] == small;
    forall i | 0 <= i < |next| ensures Size(next[i]) * Pow2(i) <= total {
      if i < level {
        assert next[i] == todo[i];
      }
    }
  }

  lemma PendingSplit(todo: seq<Segment>, lo: int, hi: int, total: nat, big: Segment, small: Segment)
    requires Pending(todo, lo, hi, total) && |todo| > 0 && total <= MAX_BLOCK
    requires Halves(todo[|todo| - 1], big, small)
    ensures Pending(todo[..|todo| - 1] + [big, small], lo, hi, total)
    ensures Weight(todo[..|todo| - 1] + [big, small]) < Weight(todo)
  {
    DepthBound(Size(todo[|todo| - 1]), |todo| - 1);
    DisjointSplit(todo, lo, hi, big, small);
    HalvingSplit(todo, total, big, small);
    WeightPush(todo[..|todo| - 1], big, small);
  }

  lemma PendingDone(todo: seq<Segment>, lo: int, hi: int, total: nat)
    requires Pending(todo, lo, hi, total) && |todo| > 0
    ensures Pending(todo[..|todo| - 1] + [], lo, hi, total)
    ensures 0 <= Weight(todo[..|todo| - 1] + []) < Weight(todo)
  {
    var rest := todo[..|todo| - 1];
    assert rest + [] == rest;
    WeightNonNegative(rest, lo, hi);
  }

  /** The invariant of the quicksort: fmap is in order but for the pending segments. */
  ghost predicate Sorting(rank: seq<nat>, was: seq<nat>, fmap: seq<nat>, lo: int, hi: int, todo: seq<Segment>)
  {
    && 0 <= lo && hi < |fmap|
    && RangePermutation(was, fmap, lo, hi) && InRange(fmap, |rank|)
    && SortedBut(Gather(rank, fmap), lo, hi, todo)
  }

  /** One segment has been worked on: either it is sorted, or two parts of it remain. */
  ghost predicate Worked(rank: seq<nat>, before: seq<nat>, after: seq<nat>, s: Segment, inner: seq<Segment>) {
    && RangePermutation(before, after, s.lo, s.hi) && InRange(after, |rank|)
    && 0 <= s.lo && s.hi < |after|
    && SortedBut(Gather(rank, after), s.lo, s.hi, inner)
    && (inner == [] || (|inner| == 2 && Halves(s, inner[0], inner[1])))
  }

  ghost predicate Invariant(rank: seq<nat>, was: seq<nat>, fmap: seq<nat>, lo: int, hi: int, todo: seq<Segment>) {
    Sorting(rank, was, fmap, lo, hi, todo) && hi - lo < MAX_BLOCK && Pending(todo, lo, hi, MAX_BLOCK)
  }

  lemma RoundKeeps(rank: seq<nat>, was: seq<nat>, before: seq<nat>, after: seq<nat>, lo: int, hi: int,
                   todo: seq<Segment>, inner: seq<Segment>)
    requires |todo| > 0 && Invariant(rank, was, before, lo, hi, todo)
    requires Worked(rank, before, after, todo[|todo| - 1], inner)
    ensures Invariant(rank, was, after, lo, hi, todo[..|todo| - 1] + inner)
    ensures 0 <= Weight(todo[..|todo| - 1] + inner) < Weight(todo)
  {
    var s := todo[|todo| - 1];
    KeysRearranged(rank, before, after, s.lo, s.hi);
    SegmentDone(Gather(rank, before), Gather(rank, after), lo, hi, todo, inner);
    PendingDone(todo, lo, hi, MAX_BLOCK);
    if inner != [] {
      assert inner == [inner[0], inner[1]];
      PendingSplit(todo, lo, hi, MAX_BLOCK, inner[0], inner[1]);
      WeightNonNegative(todo[..|todo| - 1] + inner, lo, hi);
    }
  }

  /** Takes one segment: sorts it, or splits it in two (larger part first). */
  method Round(fmap: array<nat>, eclass: array<nat>, lo: int, hi: int, r: nat)
    returns (r': nat, split: bool, n: int, m: int, ghost inner: seq<Segment>)
    requires fmap != eclass && InRange(fmap[..], eclass.Length)
    requires 0 <= lo <= hi + 1 <= fmap.Length && r < 32768
    modifies fmap
    ensures r' < 32768
    ensures Worked(eclass[..], old(fmap[..]), fmap[..], Segment(lo, hi), inner)
    ensures inner == (if split then Parts(lo, hi, n, m) else []) && (split ==> |inner| == 2)
  {
    r', split, n, m, inner := r, false, 0, 0, [];
    if hi - lo < SMALL_THRESHOLD {
      SimpleSort(fmap, eclass, lo, hi);
      SortedIsSortedBut(eclass[..], fmap[..], lo, hi);
      return;
    }
    r' := (r * 7621 + 1) % 32768;
    var r3 := r' % 3;
    var p := if r3 == 0 then lo else if r3 == 1 then (lo + hi) / 2 else hi;
    var uniform;
    uniform, n, m := SplitSegment(fmap, eclass, lo, hi, p);
    if uniform {
      SortedIsSortedBut(eclass[..], fmap[..], lo, hi);
      return;
    }
    split := true;
    inner := Parts(lo, hi, n, m);
  }

  ghost function Parts(lo: int, hi: int, n: int, m: int): seq<Segment> {
    if n - lo > hi - m then [Segment(lo, n), Segment(m, hi)] else [Segment(m, hi), Segment(lo, n)]
  }

  lemma TopOfStack(rank: seq<nat>, was: seq<nat>, fmap: seq<nat>, lo: int, hi: int, todo: seq<Segment>,
                   stackLo: seq<int>, stackHi: seq<int>)
    requires |todo| > 0 && Invariant(rank, was, fmap, lo, hi, todo) && StackHolds(stackLo, stackHi, todo)
    ensures |todo| < STACK_SIZE - 1 && InRange(fmap, |rank|)
    ensures var sp := |todo| - 1; todo[sp] == Segment(stackLo[sp], stackHi[sp])
    ensures var s := todo[|todo| - 1]; 0 <= s.lo <= s.hi + 1 <= |fmap|
    ensures StackHolds(stackLo, stackHi, todo[..|todo| - 1])
  {
  }

  lemma InvariantEnds(rank: seq<nat>, was: seq<nat>, fmap: seq<nat>, lo: int, hi: int)
    requires Invariant(rank, was, fmap, lo, hi, [])
    ensures RangePermutation(was, fmap, lo, hi) && 0 <= lo && hi < |fmap|
    ensures InRange(fmap, |rank|) && Sorted(rank, fmap, lo, hi)
  {
    SortedIsSortedBut(rank, fmap, lo, hi);
  }

  method Push(stackLo: array<int>, stackHi: array<int>, sp: nat, lo: int, hi: int, ghost todo: seq<Segment>)
    requires stackLo != stackHi && sp == |todo| < stackLo.Length == stackHi.Length
    requires StackHolds(stackLo[..], stackHi[..], todo)
    modifies stackLo, stackHi
    ensures StackHolds(stackLo[..], stackHi[..], todo + [Segment(lo, hi)])
  {
    stackLo[sp], stackHi[sp] := lo, hi;
  }

  /** Pushes both parts of a split segment, the larger one first. */
  method PushParts(stackLo: array<int>, stackHi: array<int>, sp: nat, lo: int, hi: int, n: int, m: int,
                   ghost rest: seq<Segment>)
    requires stackLo != stackHi && sp == |rest| < stackLo.Length - 1 && stackLo.Length == stackHi.Length
    requires StackHolds(stackLo[..], stackHi[..], rest)
    modifies stackLo, stackHi
    ensures StackHolds(stackLo[..], stackHi[..], rest + Parts(lo, hi, n, m))
  {
    if n - lo > hi - m {
      Push(stackLo, stackHi, sp, lo, n, rest);
      Push(stackLo, stackHi, sp + 1, m, hi, rest + [Segment(lo, n)]);
      assert rest + [Segment(lo, n)] + [Segment(m, hi)] == rest + Parts(lo, hi, n, m);
    } else {
      Push(stackLo, stackHi, sp, m, hi, rest);
      Push(stackLo, stackHi, sp + 1, lo, n, rest + [Segment(m, hi)]);
      assert rest + [Segment(m, hi)] + [Segment(lo, n)] == rest + Parts(lo, hi, n, m);
    }
  }

  lemma InvariantStarts(rank: seq<nat>, was: seq<nat>, lo: int, hi: int)
    requires 0 <= lo <= hi < |was| && hi - lo < MAX_BLOCK && InRange(was, |rank|)
    ensures Invariant(rank, was, was, lo, hi, [Segment(lo, hi)])
  {
    var todo := [Segment(lo, hi)];
    assert Pow2(0) == 1;
    assert forall a, b :: lo <= a < b <= hi ==> todo[0].lo <= a && b <= todo[0].hi && Together(todo, a, b);
  }

  /**
   * Sorts fmap[loSt..hiSt] by rank. The pending segments never come near the
   * end of the 100-entry stack, since the larger half is pushed first.
   */
  method QSort3(fmap: array<nat>, eclass: array<nat>, loSt: int, hiSt: int)
    requires fmap != eclass && InRange(fmap[..], eclass.Length)
    requires 0 <= loSt <= hiSt < fmap.Length && hiSt - loSt < MAX_BLOCK
    modifies fmap
    ensures RangePermutation(old(fmap[..]), fmap[..], loSt, hiSt)
    ensures InRange(fmap[..], eclass.Length)
    ensures Sorted(eclass[..], fmap[..], loSt, hiSt)
  {
    var stackLo, stackHi := new int[STACK_SIZE], new int[STACK_SIZE];
    var r, sp := 0, 1;
    stackLo[0], stackHi[0] := loSt, hiSt;
    ghost var was, rank, todo := fmap[..], eclass[..], [Segment(loSt, hiSt)];
    InvariantStarts(rank, was, loSt, hiSt);
    assert StackHolds(stackLo[..], stackHi[..], todo);
    hide Invariant, StackHolds, Worked, RangePermutation, InRange, Sorted, Parts;
    while sp > 0
      invariant r < 32768 && |todo| == sp
      invariant StackHolds(stackLo[..], stackHi[..], todo)
      invariant eclass[..] == rank && Invariant(rank, was, fmap[..], loSt, hiSt, todo)
      decreases Weight(todo)
    {
      ghost var before, rest := fmap[..], todo[..sp - 1];
      TopOfStack(rank, was, before, loSt, hiSt, todo, stackLo[..], stackHi[..]);
      assert sp < STACK_SIZE - 1;
      sp := sp - 1;
      var lo, hi := stackLo[sp], stackHi[sp];
      var split, n, m;
      ghost var inner;
      r, split, n, m, inner := Round(fmap, eclass, lo, hi, r);
      ghost var after := fmap[..];
      RoundKeeps(rank, was, before, after, loSt, hiSt, todo, inner);
      if split {
        PushParts(stackLo, stackHi, sp, lo, hi, n, m, rest);
        sp := sp + 2;
        assert fmap[..] == after && eclass[..] == rank;
      }
      todo := rest + inner;
    }
    InvariantEnds(rank, was, fmap[..], loSt, hiSt);
  }
}

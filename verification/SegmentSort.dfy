/** Sorting one bucket of the fallback sort by the ranks of its members. */
module SegmentSort {
  import opened Permutations

  const SMALL_THRESHOLD := 10
  const STACK_SIZE := 100

  /** t rearranges s inside [lo, hi] and agrees with it elsewhere. */
  ghost predicate RangePermutation(s: seq<nat>, t: seq<nat>, lo: int, hi: int) {
    && |s| == |t|
    && multiset(s) == multiset(t)
    && forall k :: 0 <= k < |s| && !(lo <= k <= hi) ==> t[k] == s[k]
  }

  lemma SwapPermutes(s: seq<nat>, i: nat, j: nat)
    requires i < |s| && j < |s|
    ensures multiset(s[i := s[j]][j := s[i]]) == multiset(s)
  {
    var t := s[i := s[j]];
    assert multiset(t) == multiset(s)[s[i] := multiset(s)[s[i]] - 1] + multiset{s[j]};
    assert multiset(t[j := s[i]]) == multiset(t)[t[j] := multiset(t)[t[j]] - 1] + multiset{s[i]};
  }

  lemma SplitMultiset(s: seq<nat>, lo: nat, hi: nat)
    requires lo <= hi <= |s|
    ensures multiset(s) == multiset(s[..lo]) + multiset(s[lo..hi]) + multiset(s[hi..])
  {
    assert s == s[..lo] + s[lo..hi] + s[hi..];
  }

  lemma CancelOuter<T>(a: multiset<T>, b: multiset<T>, y: multiset<T>, c: multiset<T>)
    requires a + b + c == a + y + c
    ensures b == y
  {
    forall x ensures b[x] == y[x] {
      assert (a + b + c)[x] == a[x] + b[x] + c[x];
      assert (a + y + c)[x] == a[x] + y[x] + c[x];
    }
  }

  /** Whatever a range holds after rearranging, it held before. */
  lemma RangeSource(s: seq<nat>, t: seq<nat>, lo: int, hi: int, k: nat) returns (m: nat)
    requires RangePermutation(s, t, lo, hi) && 0 <= lo <= k <= hi < |s|
    ensures lo <= m <= hi && t[k] == s[m]
  {
    SplitMultiset(s, lo, hi + 1);
    SplitMultiset(t, lo, hi + 1);
    assert s[..lo] == t[..lo] && s[hi + 1..] == t[hi + 1..];
    var b, y := s[lo..hi + 1], t[lo..hi + 1];
    assert multiset(b) == multiset(y) by {
      CancelOuter(multiset(s[..lo]), multiset(b), multiset(y), multiset(s[hi + 1..]));
    }
    assert y[k - lo] in multiset(y);
    var i := MemberAtIndex(b, y[k - lo]);
    m := lo + i;
  }

  lemma RangeSame(s: seq<nat>, lo: int, hi: int)
    ensures RangePermutation(s, s, lo, hi)
  {
  }

  lemma RangeChain(s: seq<nat>, t: seq<nat>, u: seq<nat>, lo: int, hi: int, lo': int, hi': int)
    requires RangePermutation(s, t, lo, hi) && RangePermutation(t, u, lo', hi')
    requires lo <= lo' && hi' <= hi
    ensures RangePermutation(s, u, lo, hi)
  {
  }

  ghost predicate InRange(fmap: seq<nat>, n: nat) {
    forall k :: 0 <= k < |fmap| ==> fmap[k] < n
  }

  lemma RangeStays(s: seq<nat>, t: seq<nat>, n: nat)
    requires multiset(s) == multiset(t) && InRange(s, n)
    ensures InRange(t, n)
  {
    forall k | 0 <= k < |t| ensures t[k] < n {
      assert t[k] in multiset(t);
      var m := MemberAtIndex(s, t[k]);
    }
  }

  ghost predicate Sorted(rank: seq<nat>, fmap: seq<nat>, lo: int, hi: int)
    requires InRange(fmap, |rank|) && 0 <= lo && hi < |fmap|
  {
    forall a, b :: lo <= a < b <= hi ==> rank[fmap[a]] <= rank[fmap[b]]
  }

  /**
   * The array while one element tmp is being sunk: what cur shows, except that
   * the cell at `hole`, where tmp will go, still holds something else.
   */
  ghost predicate Hole(s: seq<nat>, cur: seq<nat>, hole: nat, tmp: nat) {
    && hole < |cur| == |s|
    && cur[hole] == tmp
    && forall k :: 0 <= k < |s| && k != hole ==> s[k] == cur[k]
  }

  lemma HoleMoves(was: seq<nat>, s: seq<nat>, cur: seq<nat>, hole: nat, j: nat, tmp: nat, lo: int, hi: int)
    requires Hole(s, cur, hole, tmp) && RangePermutation(was, cur, lo, hi)
    requires hole != j < |s| && lo <= hole <= hi && lo <= j <= hi
    ensures |cur| == |s| && Hole(s[hole := s[j]], cur[hole := cur[j]][j := tmp], j, tmp)
    ensures RangePermutation(was, cur[hole := cur[j]][j := tmp], lo, hi)
  {
    SwapPermutes(cur, hole, j);
  }

  lemma SinkStarts(s: seq<nat>, i: nat, lo: int, hi: int)
    requires i < |s|
    ensures Hole(s, s, i, s[i]) && RangePermutation(s, s, lo, hi)
  {
  }

  lemma InRangeMove(s: seq<nat>, i: nat, j: nat, n: nat)
    requires InRange(s, n) && i < |s| && j < |s|
    ensures s[j] < n && InRange(s[i := s[j]], n)
  {
  }

  lemma HoleFilled(s: seq<nat>, cur: seq<nat>, hole: nat, tmp: nat)
    requires Hole(s, cur, hole, tmp)
    ensures s[hole := tmp] == cur
  {
  }

  lemma RangeInRange(s: seq<nat>, t: seq<nat>, lo: int, hi: int, n: nat)
    requires RangePermutation(s, t, lo, hi) && InRange(s, n)
    ensures InRange(t, n)
  {
    RangeStays(s, t, n);
  }

  /** Sinks the element at i past those of smaller rank, in steps of `stride`. */
  method SinkByStride(fmap: array<nat>, eclass: array<nat>, lo: int, hi: int, i: int, stride: nat)
    requires fmap != eclass && stride > 0
    requires 0 <= lo <= i && i + stride <= hi < fmap.Length
    requires InRange(fmap[..], eclass.Length)
    modifies fmap
    ensures RangePermutation(old(fmap[..]), fmap[..], lo, hi)
    ensures InRange(fmap[..], eclass.Length)
  {
    hide Hole, RangePermutation, InRange;
    ghost var was, cur := fmap[..], fmap[..];
    SinkStarts(was, i, lo, hi);
    InRangeMove(was, i, i, eclass.Length);
    var tmp := fmap[i];
    var ecTmp := eclass[tmp];
    var j := i + stride;
    InRangeMove(was, i, j, eclass.Length);
    while j <= hi && ecTmp > eclass[fmap[j]]
      invariant i + stride <= j <= hi + stride
      invariant InRange(fmap[..], eclass.Length) && (j <= hi ==> fmap[j] < eclass.Length)
      invariant Hole(fmap[..], cur, j - stride, tmp)
      invariant RangePermutation(was, cur, lo, hi)
    {
      HoleMoves(was, fmap[..], cur, j - stride, j, tmp, lo, hi);
      InRangeMove(fmap[..], j - stride, j, eclass.Length);
      cur := cur[j - stride := cur[j]][j := tmp];
      fmap[j - stride] := fmap[j];
      j := j + stride;
      if j <= hi {
        InRangeMove(fmap[..], j, j, eclass.Length);
      }
    }
    HoleFilled(fmap[..], cur, j - stride, tmp);
    fmap[j - stride] := tmp;
    RangeInRange(was, cur, lo, hi, eclass.Length);
  }

  /** was[i] is being sunk to the right; everything in [i + 1, j) has moved left by one. */
  ghost predicate Sinking(was: seq<nat>, s: seq<nat>, i: nat, j: nat) {
    && i < j <= |was| == |s|
    && (forall k :: 0 <= k < |s| && !(i <= k < j) ==> s[k] == was[k])
    && (forall k :: i <= k < j - 1 ==> s[k] == was[k + 1])
  }

  lemma {:induction false} SunkPermutes(was: seq<nat>, t: seq<nat>, i: nat, j: nat)
    requires Sinking(was, t, i, j) && t[j - 1] == was[i]
    ensures multiset(t) == multiset(was)
    decreases j
  {
    if i + 1 == j {
      assert t == was;
    } else {
      var u := t[j - 1 := t[j - 2]][j - 2 := t[j - 1]];
      SunkPermutes(was, u, i, j - 1);
      SwapPermutes(t, j - 1, j - 2);
    }
  }

  lemma SunkInPlace(rank: seq<nat>, was: seq<nat>, t: seq<nat>, i: nat, j: nat, hi: int)
    requires Sinking(was, t, i, j) && t[j - 1] == was[i] && j <= hi + 1 <= |t|
    requires InRange(was, |rank|) && InRange(t, |rank|) && Sorted(rank, was, i + 1, hi)
    requires i < j - 1 ==> rank[was[j - 1]] < rank[was[i]]
    requires j <= hi ==> rank[was[i]] <= rank[was[j]]
    ensures Sorted(rank, t, i, hi)
  {
    forall a, b | i <= a < b <= hi ensures rank[t[a]] <= rank[t[b]] {
      assert t[a] == if a < j - 1 then was[a + 1] else if a == j - 1 then was[i] else was[a];
      assert t[b] == if b < j - 1 then was[b + 1] else if b == j - 1 then was[i] else was[b];
    }
  }

  /** Sinks the element at i into the ordered range after it. */
  method SinkByOne(fmap: array<nat>, eclass: array<nat>, lo: int, hi: int, i: int)
    requires fmap != eclass
    requires 0 <= lo <= i < hi < fmap.Length
    requires InRange(fmap[..], eclass.Length)
    requires Sorted(eclass[..], fmap[..], i + 1, hi)
    modifies fmap
    ensures RangePermutation(old(fmap[..]), fmap[..], lo, hi)
    ensures InRange(fmap[..], eclass.Length)
    ensures Sorted(eclass[..], fmap[..], i, hi)
  {
    ghost var was, rank := fmap[..], eclass[..];
    var tmp := fmap[i];
    var ecTmp := eclass[tmp];
    var j := i + 1;
    while j <= hi && ecTmp > eclass[fmap[j]]
      invariant i + 1 <= j <= hi + 1
      invariant Sinking(was, fmap[..], i, j)
      invariant i < j - 1 ==> rank[was[j - 1]] < ecTmp
    {
      fmap[j - 1] := fmap[j];
      j := j + 1;
    }
    fmap[j - 1] := tmp;
    SunkPermutes(was, fmap[..], i, j);
    RangeStays(was, fmap[..], eclass.Length);
    SunkInPlace(rank, was, fmap[..], i, j, hi);
  }

  method SimpleSort(fmap: array<nat>, eclass: array<nat>, lo: int, hi: int)
    requires fmap != eclass
    requires 0 <= lo && hi < fmap.Length
    requires InRange(fmap[..], eclass.Length)
    modifies fmap
    ensures RangePermutation(old(fmap[..]), fmap[..], lo, hi)
    ensures InRange(fmap[..], eclass.Length)
    ensures Sorted(eclass[..], fmap[..], lo, hi)
  {
    if lo == hi { return; }
    ghost var was := fmap[..];
    if hi - lo > 3 {
      var i := hi - 4;
      while i >= lo
        invariant lo - 1 <= i <= hi - 4
        invariant RangePermutation(was, fmap[..], lo, hi) && InRange(fmap[..], eclass.Length)
      {
        SinkByStride(fmap, eclass, lo, hi, i, 4);
        i := i - 1;
      }
    }
    var i := hi - 1;
    while i >= lo
      invariant lo <= hi ==> lo - 1 <= i <= hi - 1
      invariant RangePermutation(was, fmap[..], lo, hi) && InRange(fmap[..], eclass.Length)
      invariant lo <= hi ==> Sorted(eclass[..], fmap[..], i + 1, hi)
    {
      SinkByOne(fmap, eclass, lo, hi, i);
      i := i - 1;
    }
  }

  method Swap(fmap: array<nat>, i: nat, j: nat)
    requires i < fmap.Length && j < fmap.Length
    modifies fmap
    ensures multiset(fmap[..]) == old(multiset(fmap[..]))
    ensures fmap[..] == old(fmap[..][i := fmap[j]][j := fmap[i]])
  {
    SwapPermutes(fmap[..], i, j);
    fmap[i], fmap[j] := fmap[j], fmap[i];
  }

  /** i of the n exchanges between the ranges at p and q are done. */
  ghost predicate Exchanged(was: seq<nat>, s: seq<nat>, p: nat, q: nat, i: nat) {
    && p + i <= q && q + i <= |was| == |s|
    && (forall k :: p <= k < p + i ==> s[k] == was[k - p + q])
    && (forall k :: q <= k < q + i ==> s[k] == was[k - q + p])
    && (forall k :: 0 <= k < |s| && !(p <= k < p + i) && !(q <= k < q + i) ==> s[k] == was[k])
  }

  lemma {:induction false} ExchangedPermutes(was: seq<nat>, s: seq<nat>, p: nat, q: nat, i: nat)
    requires Exchanged(was, s, p, q, i)
    ensures multiset(s) == multiset(was)
    decreases i
  {
    if i == 0 {
      assert s == was;
    } else {
      var u := s[p + i - 1 := s[q + i - 1]][q + i - 1 := s[p + i - 1]];
      ExchangedPermutes(was, u, p, q, i - 1);
      SwapPermutes(s, p + i - 1, q + i - 1);
    }
  }

  lemma ExchangedStart(was: seq<nat>, p: nat, q: nat)
    requires p <= q <= |was|
    ensures Exchanged(was, was, p, q, 0)
  {
  }

  lemma ExchangedStep(was: seq<nat>, s: seq<nat>, p: nat, q: nat, i: nat)
    requires Exchanged(was, s, p, q, i) && p + i < q && q + i < |s|
    ensures Exchanged(was, s[p + i := s[q + i]][q + i := s[p + i]], p, q, i + 1)
  {
  }

  /** Exchanges the n elements from p with the n elements from q. */
  method SwapRanges(fmap: array<nat>, p: nat, q: nat, n: nat)
    requires p + n <= q && q + n <= fmap.Length
    modifies fmap
    ensures multiset(fmap[..]) == old(multiset(fmap[..]))
    ensures Exchanged(old(fmap[..]), fmap[..], p, q, n)
  {
    hide Exchanged;
    var yyp1, yyp2, yyn := p, q, n;
    ghost var was := fmap[..];
    ExchangedStart(was, p, q);
    while yyn > 0
      invariant 0 <= yyn <= n && yyp1 == p + n - yyn && yyp2 == q + n - yyn
      invariant Exchanged(was, fmap[..], p, q, n - yyn)
    {
      ExchangedStep(was, fmap[..], p, q, n - yyn);
      Swap(fmap, yyp1, yyp2);
      yyp1, yyp2, yyn := yyp1 + 1, yyp2 + 1, yyn - 1;
    }
    ExchangedPermutes(was, fmap[..], p, q, n);
  }

  /** Ranks in [a, b) compare to med as sign says. */
  ghost predicate Band(rank: seq<nat>, s: seq<nat>, a: int, b: int, med: nat, sign: int) {
    forall k :: a <= k < b && 0 <= k < |s| && s[k] < |rank| ==>
      if sign < 0 then rank[s[k]] < med else if sign == 0 then rank[s[k]] == med else rank[s[k]] > med
  }

  /** The state of the three-way partition: equal, less, unseen, greater, equal. */
  ghost predicate Partition(rank: seq<nat>, s: seq<nat>, lo: int, hi: int, med: nat,
                            ltLo: int, unLo: int, unHi: int, gtHi: int) {
    && 0 <= lo <= ltLo <= unLo <= unHi + 1 <= gtHi + 1 <= hi + 1 <= |s|
    && Band(rank, s, lo, ltLo, med, 0) && Band(rank, s, ltLo, unLo, med, -1)
    && Band(rank, s, unHi + 1, gtHi + 1, med, 1) && Band(rank, s, gtHi + 1, hi + 1, med, 0)
  }

  lemma PartitionEqualLow(rank: seq<nat>, s: seq<nat>, lo: int, hi: int, med: nat,
                          ltLo: int, unLo: int, unHi: int, gtHi: int)
    requires Partition(rank, s, lo, hi, med, ltLo, unLo, unHi, gtHi) && unLo <= unHi
    requires InRange(s, |rank|) && rank[s[unLo]] == med
    ensures Partition(rank, s[unLo := s[ltLo]][ltLo := s[unLo]], lo, hi, med, ltLo + 1, unLo + 1, unHi, gtHi)
  {
  }

  lemma PartitionEqualHigh(rank: seq<nat>, s: seq<nat>, lo: int, hi: int, med: nat,
                           ltLo: int, unLo: int, unHi: int, gtHi: int)
    requires Partition(rank, s, lo, hi, med, ltLo, unLo, unHi, gtHi) && unLo <= unHi
    requires InRange(s, |rank|) && rank[s[unHi]] == med
    ensures Partition(rank, s[unHi := s[gtHi]][gtHi := s[unHi]], lo, hi, med, ltLo, unLo, unHi - 1, gtHi - 1)
  {
  }

  lemma PartitionLess(rank: seq<nat>, s: seq<nat>, lo: int, hi: int, med: nat,
                      ltLo: int, unLo: int, unHi: int, gtHi: int)
    requires Partition(rank, s, lo, hi, med, ltLo, unLo, unHi, gtHi) && unLo <= unHi && InRange(s, |rank|)
    ensures rank[s[unLo]] < med ==> Partition(rank, s, lo, hi, med, ltLo, unLo + 1, unHi, gtHi)
    ensures rank[s[unHi]] > med ==> Partition(rank, s, lo, hi, med, ltLo, unLo, unHi - 1, gtHi)
  {
  }

  lemma PartitionBounds(rank: seq<nat>, s: seq<nat>, lo: int, hi: int, med: nat,
                        ltLo: int, unLo: int, unHi: int, gtHi: int)
    requires Partition(rank, s, lo, hi, med, ltLo, unLo, unHi, gtHi) && InRange(s, |rank|)
    ensures 0 <= lo <= ltLo <= unLo <= unHi + 1 <= gtHi + 1 <= hi + 1 <= |s|
    ensures unLo <= unHi ==> s[unLo] < |rank| && s[unHi] < |rank|
  {
  }

  method SetAsideLow(fmap: array<nat>, eclass: array<nat>, d: nat, lo: int, hi: int, med: nat,
                     ltLo: int, unLo: int, unHi: int, gtHi: int)
    requires fmap != eclass && d <= eclass.Length && InRange(fmap[..], eclass.Length - d)
    requires Partition(eclass[d..], fmap[..], lo, hi, med, ltLo, unLo, unHi, gtHi)
    requires unLo <= unHi && eclass[fmap[unLo] + d] == med
    modifies fmap
    ensures RangePermutation(old(fmap[..]), fmap[..], lo, hi) && InRange(fmap[..], eclass.Length - d)
    ensures Partition(eclass[d..], fmap[..], lo, hi, med, ltLo + 1, unLo + 1, unHi, gtHi)
  {
    ghost var was := fmap[..];
    PartitionEqualLow(eclass[d..], was, lo, hi, med, ltLo, unLo, unHi, gtHi);
    Swap(fmap, unLo, ltLo);
    RangeStays(was, fmap[..], eclass.Length - d);
  }

  method SetAsideHigh(fmap: array<nat>, eclass: array<nat>, d: nat, lo: int, hi: int, med: nat,
                      ltLo: int, unLo: int, unHi: int, gtHi: int)
    requires fmap != eclass && d <= eclass.Length && InRange(fmap[..], eclass.Length - d)
    requires Partition(eclass[d..], fmap[..], lo, hi, med, ltLo, unLo, unHi, gtHi)
    requires unLo <= unHi && eclass[fmap[unHi] + d] == med
    modifies fmap
    ensures RangePermutation(old(fmap[..]), fmap[..], lo, hi) && InRange(fmap[..], eclass.Length - d)
    ensures Partition(eclass[d..], fmap[..], lo, hi, med, ltLo, unLo, unHi - 1, gtHi - 1)
    ensures forall k :: unLo <= k < unHi ==> fmap[k] == old(fmap[k])
  {
    ghost var was := fmap[..];
    PartitionEqualHigh(eclass[d..], was, lo, hi, med, ltLo, unLo, unHi, gtHi);
    Swap(fmap, unHi, gtHi);
    RangeStays(was, fmap[..], eclass.Length - d);
  }

  method ExchangePair(fmap: array<nat>, eclass: array<nat>, d: nat, lo: int, hi: int, med: nat,
                      ltLo: int, unLo: int, unHi: int, gtHi: int)
    requires fmap != eclass && d <= eclass.Length && InRange(fmap[..], eclass.Length - d)
    requires Partition(eclass[d..], fmap[..], lo, hi, med, ltLo, unLo, unHi, gtHi)
    requires unLo <= unHi && eclass[fmap[unLo] + d] > med > eclass[fmap[unHi] + d]
    modifies fmap
    ensures RangePermutation(old(fmap[..]), fmap[..], lo, hi) && InRange(fmap[..], eclass.Length - d)
    ensures Partition(eclass[d..], fmap[..], lo, hi, med, ltLo, unLo + 1, unHi - 1, gtHi)
  {
    ghost var was := fmap[..];
    PartitionExchange(eclass[d..], was, lo, hi, med, ltLo, unLo, unHi, gtHi);
    Swap(fmap, unLo, unHi);
    RangeStays(was, fmap[..], eclass.Length - d);
  }

  method ScanUp(fmap: array<nat>, eclass: array<nat>, d: nat, lo: int, hi: int, med: nat,
                ltLo0: int, unLo0: int, unHi: int, gtHi: int) returns (ltLo: int, unLo: int)
    requires fmap != eclass && d <= eclass.Length && InRange(fmap[..], eclass.Length - d)
    requires Partition(eclass[d..], fmap[..], lo, hi, med, ltLo0, unLo0, unHi, gtHi)
    modifies fmap
    ensures RangePermutation(old(fmap[..]), fmap[..], lo, hi) && InRange(fmap[..], eclass.Length - d)
    ensures Partition(eclass[d..], fmap[..], lo, hi, med, ltLo, unLo, unHi, gtHi) && unLo0 <= unLo
    ensures unLo <= unHi ==> eclass[fmap[unLo] + d] > med
  {
    hide Partition, InRange, RangePermutation;
    ltLo, unLo := ltLo0, unLo0;
    ghost var was, rank := fmap[..], eclass[d..];
    RangeSame(was, lo, hi);
    while true
      invariant unLo0 <= unLo && RangePermutation(was, fmap[..], lo, hi) && InRange(fmap[..], eclass.Length - d)
      invariant eclass[d..] == rank && Partition(rank, fmap[..], lo, hi, med, ltLo, unLo, unHi, gtHi)
      decreases unHi + 1 - unLo
    {
      ghost var before := fmap[..];
      PartitionBounds(rank, before, lo, hi, med, ltLo, unLo, unHi, gtHi);
      if unLo > unHi { break; }
      var n := eclass[fmap[unLo] + d] - med;
      if n == 0 {
        SetAsideLow(fmap, eclass, d, lo, hi, med, ltLo, unLo, unHi, gtHi);
        RangeChain(was, before, fmap[..], lo, hi, lo, hi);
        ltLo, unLo := ltLo + 1, unLo + 1;
        continue;
      }
      if n > 0 { break; }
      PartitionLess(rank, before, lo, hi, med, ltLo, unLo, unHi, gtHi);
      unLo := unLo + 1;
    }
  }

  method ScanDown(fmap: array<nat>, eclass: array<nat>, d: nat, lo: int, hi: int, med: nat,
                  ltLo: int, unLo: int, unHi0: int, gtHi0: int) returns (unHi: int, gtHi: int)
    requires fmap != eclass && d <= eclass.Length && InRange(fmap[..], eclass.Length - d)
    requires Partition(eclass[d..], fmap[..], lo, hi, med, ltLo, unLo, unHi0, gtHi0)
    modifies fmap
    ensures RangePermutation(old(fmap[..]), fmap[..], lo, hi) && InRange(fmap[..], eclass.Length - d)
    ensures Partition(eclass[d..], fmap[..], lo, hi, med, ltLo, unLo, unHi, gtHi) && unHi <= unHi0
    ensures unLo <= unHi ==> eclass[fmap[unHi] + d] < med && fmap[unLo] == old(fmap[unLo])
  {
    hide Partition, InRange, RangePermutation;
    unHi, gtHi := unHi0, gtHi0;
    ghost var was, rank := fmap[..], eclass[d..];
    RangeSame(was, lo, hi);
    PartitionBounds(rank, was, lo, hi, med, ltLo, unLo, unHi, gtHi);
    while true
      invariant unHi <= unHi0 && RangePermutation(was, fmap[..], lo, hi) && InRange(fmap[..], eclass.Length - d)
      invariant eclass[d..] == rank && Partition(rank, fmap[..], lo, hi, med, ltLo, unLo, unHi, gtHi)
      invariant 0 <= unLo && unHi < fmap.Length && (unLo <= unHi ==> fmap[unLo] == was[unLo])
      decreases unHi + 1 - unLo
    {
      ghost var before := fmap[..];
      PartitionBounds(rank, before, lo, hi, med, ltLo, unLo, unHi, gtHi);
      if unLo > unHi { break; }
      var n := eclass[fmap[unHi] + d] - med;
      if n == 0 {
        SetAsideHigh(fmap, eclass, d, lo, hi, med, ltLo, unLo, unHi, gtHi);
        RangeChain(was, before, fmap[..], lo, hi, lo, hi);
        gtHi, unHi := gtHi - 1, unHi - 1;
        continue;
      }
      if n < 0 { break; }
      PartitionLess(rank, before, lo, hi, med, ltLo, unLo, unHi, gtHi);
      unHi := unHi - 1;
    }
  }

  lemma PartitionExchange(rank: seq<nat>, s: seq<nat>, lo: int, hi: int, med: nat,
                          ltLo: int, unLo: int, unHi: int, gtHi: int)
    requires Partition(rank, s, lo, hi, med, ltLo, unLo, unHi, gtHi) && unLo <= unHi
    requires InRange(s, |rank|) && rank[s[unLo]] > med > rank[s[unHi]]
    ensures Partition(rank, s[unLo := s[unHi]][unHi := s[unLo]], lo, hi, med, ltLo, unLo + 1, unHi - 1, gtHi)
  {
  }

  lemma PartitionStart(rank: seq<nat>, s: seq<nat>, lo: int, hi: int, med: nat)
    requires 0 <= lo <= hi < |s|
    ensures Partition(rank, s, lo, hi, med, lo, lo, hi, hi)
  {
  }

  /** Splits [lo, hi] around med, ranks standing d further on; the equal elements are left at both ends. */
  method Split(fmap: array<nat>, eclass: array<nat>, d: nat, lo: int, hi: int, med: nat)
    returns (ltLo: int, unLo: int, unHi: int, gtHi: int)
    requires fmap != eclass && d <= eclass.Length && InRange(fmap[..], eclass.Length - d)
    requires 0 <= lo <= hi < fmap.Length
    modifies fmap
    ensures RangePermutation(old(fmap[..]), fmap[..], lo, hi) && InRange(fmap[..], eclass.Length - d)
    ensures Partition(eclass[d..], fmap[..], lo, hi, med, ltLo, unLo, unHi, gtHi) && unHi == unLo - 1
  {
    hide Partition, InRange, RangePermutation;
    ltLo, unLo, unHi, gtHi := lo, lo, hi, hi;
    ghost var was, rank := fmap[..], eclass[d..];
    RangeSame(was, lo, hi);
    PartitionStart(rank, was, lo, hi, med);
    while true
      invariant RangePermutation(was, fmap[..], lo, hi) && InRange(fmap[..], eclass.Length - d)
      invariant eclass[d..] == rank && Partition(rank, fmap[..], lo, hi, med, ltLo, unLo, unHi, gtHi)
      decreases unHi + 1 - unLo
    {
      ghost var s0 := fmap[..];
      ltLo, unLo := ScanUp(fmap, eclass, d, lo, hi, med, ltLo, unLo, unHi, gtHi);
      ghost var s1 := fmap[..];
      unHi, gtHi := ScanDown(fmap, eclass, d, lo, hi, med, ltLo, unLo, unHi, gtHi);
      ghost var s2 := fmap[..];
      RangeChain(was, s0, s1, lo, hi, lo, hi);
      RangeChain(was, s1, s2, lo, hi, lo, hi);
      PartitionBounds(rank, s2, lo, hi, med, ltLo, unLo, unHi, gtHi);
      if unLo > unHi { break; }
      ExchangePair(fmap, eclass, d, lo, hi, med, ltLo, unLo, unHi, gtHi);
      RangeChain(was, s2, fmap[..], lo, hi, lo, hi);
      unLo, unHi := unLo + 1, unHi - 1;
    }
  }

  lemma ExchangedBands(rank: seq<nat>, was: seq<nat>, s: seq<nat>, lo: int, mid: int, hi: int, n: nat,
                       med: nat, low: int, high: int)
    requires 0 <= lo <= mid <= hi <= |was|
    requires n <= mid - lo && n <= hi - mid && (n == mid - lo || n == hi - mid)
    requires Exchanged(was, s, lo, hi - n, n)
    requires Band(rank, was, lo, mid, med, low) && Band(rank, was, mid, hi, med, high)
    ensures Band(rank, s, lo, lo + (hi - mid), med, high)
    ensures Band(rank, s, lo + (hi - mid), hi, med, low)
  {
    forall k | lo <= k < hi
      ensures k < lo + (hi - mid) ==> exists k' :: mid <= k' < hi && s[k] == was[k']
      ensures k >= lo + (hi - mid) ==> exists k' :: lo <= k' < mid && s[k] == was[k']
    {
      var k' := if k < lo + n then k - lo + (hi - n) else if k >= hi - n then k - (hi - n) + lo else k;
      assert s[k] == was[k'];
    }
  }

  /** Trades places between the bands [lo, mid) and [mid, hi). */
  method TradeBands(fmap: array<nat>, ghost rank: seq<nat>, lo: int, mid: int, hi: int, ghost med: nat,
                    ghost low: int, ghost high: int)
    requires 0 <= lo <= mid <= hi <= fmap.Length
    requires Band(rank, fmap[..], lo, mid, med, low) && Band(rank, fmap[..], mid, hi, med, high)
    modifies fmap
    ensures RangePermutation(old(fmap[..]), fmap[..], lo, hi - 1)
    ensures Band(rank, fmap[..], lo, lo + (hi - mid), med, high)
    ensures Band(rank, fmap[..], lo + (hi - mid), hi, med, low)
  {
    var n := if mid - lo < hi - mid then mid - lo else hi - mid;
    ghost var was := fmap[..];
    SwapRanges(fmap, lo, hi - n, n);
    ExchangedBands(rank, was, fmap[..], lo, mid, hi, n, med, low, high);
  }

  /** Moves the equal elements from both ends to the middle. */
  method GatherEqual(fmap: array<nat>, eclass: array<nat>, d: nat, lo: int, hi: int, med: nat,
                     ltLo: int, unLo: int, unHi: int, gtHi: int) returns (n: int, m: int)
    requires fmap != eclass && d <= eclass.Length && InRange(fmap[..], eclass.Length - d)
    requires Partition(eclass[d..], fmap[..], lo, hi, med, ltLo, unLo, unHi, gtHi) && unHi == unLo - 1
    modifies fmap
    ensures RangePermutation(old(fmap[..]), fmap[..], lo, hi) && InRange(fmap[..], eclass.Length - d)
    ensures n == lo + unLo - ltLo - 1 && m == hi - (gtHi - unHi) + 1
    ensures lo - 1 <= n < m <= hi + 1
    ensures Band(eclass[d..], fmap[..], lo, n + 1, med, -1)
    ensures Band(eclass[d..], fmap[..], n + 1, m, med, 0)
    ensures Band(eclass[d..], fmap[..], m, hi + 1, med, 1)
  {
    ghost var was, rank := fmap[..], eclass[d..];
    TradeBands(fmap, rank, lo, ltLo, unLo, med, 0, -1);
    TradeBands(fmap, rank, unLo, gtHi + 1, hi + 1, med, 1, 0);
    n := lo + unLo - ltLo - 1;
    m := hi - (gtHi - unHi) + 1;
    RangeStays(was, fmap[..], eclass.Length - d);
  }

  /** A segment still to be sorted: lowest and highest position. */
  datatype Segment = Segment(lo: int, hi: int)

  ghost predicate Together(todo: seq<Segment>, a: int, b: int) {
    exists i :: 0 <= i < |todo| && todo[i].lo <= a && b <= todo[i].hi
  }

  /** Positions in [lo, hi] are in order, except within segments still to do. */
  ghost predicate SortedBut(key: seq<nat>, lo: int, hi: int, todo: seq<Segment>)
    requires 0 <= lo && hi < |key|
  {
    forall a, b :: lo <= a < b <= hi ==> key[a] <= key[b] || Together(todo, a, b)
  }

  ghost predicate Disjoint(todo: seq<Segment>) {
    forall i, j :: 0 <= i < j < |todo| ==> todo[i].hi < todo[j].lo || todo[j].hi < todo[i].lo
  }

  ghost predicate Within(todo: seq<Segment>, lo: int, hi: int) {
    forall i :: 0 <= i < |todo| ==> lo <= todo[i].lo <= todo[i].hi + 1 && todo[i].hi <= hi
  }

  ghost predicate TakenFrom(key: seq<nat>, x: nat, l: int, h: int) {
    exists m :: 0 <= m < |key| && l <= m <= h && x == key[m]
  }

  /** key' rearranges key within [l, h]. */
  ghost predicate Rearranged(key: seq<nat>, key': seq<nat>, l: int, h: int) {
    && |key'| == |key|
    && (forall k :: 0 <= k < |key| && !(l <= k <= h) ==> key'[k] == key[k])
    && (forall k :: 0 <= k < |key| && l <= k <= h ==> TakenFrom(key, key'[k], l, h))
  }

  lemma Origin(key: seq<nat>, key': seq<nat>, l: int, h: int, k: nat) returns (m: nat)
    requires Rearranged(key, key', l, h) && k < |key|
    ensures m < |key| && key'[k] == key[m] && if l <= k <= h then l <= m <= h else m == k
  {
    if l <= k <= h {
      assert TakenFrom(key, key'[k], l, h);
      m :| 0 <= m < |key| && l <= m <= h && key'[k] == key[m];
    } else {
      m := k;
    }
  }

  /** Working on the last segment, up to the parts named in `inner`, works on the whole. */
  lemma SegmentDone(key: seq<nat>, key': seq<nat>, lo: int, hi: int, todo: seq<Segment>, inner: seq<Segment>)
    requires 0 <= lo && hi < |key| && |todo| > 0
    requires SortedBut(key, lo, hi, todo) && Disjoint(todo) && Within(todo, lo, hi)
    requires var s := todo[|todo| - 1]; Rearranged(key, key', s.lo, s.hi) && SortedBut(key', s.lo, s.hi, inner)
    ensures SortedBut(key', lo, hi, todo[..|todo| - 1] + inner)
  {
    var last := |todo| - 1;
    var l, h := todo[last].lo, todo[last].hi;
    var todo' := todo[..last] + inner;
    forall a, b | lo <= a < b <= hi ensures key'[a] <= key'[b] || Together(todo', a, b) {
      if l <= a && b <= h {
        if Together(inner, a, b) {
          var i :| 0 <= i < |inner| && inner[i].lo <= a && b <= inner[i].hi;
          assert todo'[last + i] == inner[i];
        }
      } else {
        var a' := Origin(key, key', l, h, a);
        var b' := Origin(key, key', l, h, b);
        if Together(todo, a', b') {
          var i :| 0 <= i < |todo| && todo[i].lo <= a' && b' <= todo[i].hi;
          assert i != last && todo'[i] == todo[i];
        }
      }
    }
  }
}

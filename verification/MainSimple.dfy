/** The main sort's way with small segments: insertion by strides, comparing rotations at a depth. */
module MainSimple {
  import opened Permutations
  import opened Rotations
  import opened SegmentSort
  import opened MainCompare

  /** The keys of all rotations. */
  ghost function Keys(b: seq<Byte>): (k: seq<nat>)
    ensures |k| == |b| && forall p :: 0 <= p < |b| ==> k[p] == Key(b, p, |b|)
  {
    seq(|b|, p requires 0 <= p < |b| => Key(b, p, |b|))
  }

  /** The rotations listed from lo to hi have their first d characters in common. */
  ghost predicate Shares(b: seq<Byte>, s: seq<nat>, lo: int, hi: int, d: nat) {
    && 0 <= lo && hi < |s| && d <= |b|
    && (forall k :: lo <= k <= hi ==> s[k] < |b|)
    && forall k, m :: lo <= k <= hi && lo <= m <= hi ==> Key(b, s[k], d) == Key(b, s[m], d)
  }

  lemma SharesStay(b: seq<Byte>, s: seq<nat>, t: seq<nat>, lo: int, hi: int, d: nat)
    requires Shares(b, s, lo, hi, d) && RangePermutation(s, t, lo, hi)
    ensures Shares(b, t, lo, hi, d)
  {
    hide Key, RangePermutation;
    RangeLength(s, t, lo, hi);
    forall k | lo <= k <= hi ensures t[k] < |b| {
      var i := RangeSource(s, t, lo, hi, k);
    }
    forall k, m | lo <= k <= hi && lo <= m <= hi ensures Key(b, t[k], d) == Key(b, t[m], d) {
      var i := RangeSource(s, t, lo, hi, k);
      var j := RangeSource(s, t, lo, hi, m);
    }
  }

  lemma RangeLength(s: seq<nat>, t: seq<nat>, lo: int, hi: int)
    requires RangePermutation(s, t, lo, hi)
    ensures |t| == |s|
  {
  }

  lemma SharesAt(b: seq<Byte>, s: seq<nat>, lo: int, hi: int, d: nat, k: int, m: int)
    requires Shares(b, s, lo, hi, d) && lo <= k <= hi && lo <= m <= hi
    ensures 0 <= lo && hi < |s| && d <= |b| && s[k] < |b| && s[m] < |b| && Key(b, s[k], d) == Key(b, s[m], d)
  {
  }

  /** Rotations with d characters in common compare as they do behind these. */
  lemma DeepOrder(b: seq<Byte>, u: nat, v: nat, d: nat)
    requires u < |b| && v < |b| && d <= |b| && Key(b, u, d) == Key(b, v, d)
    ensures Key(b, Advance(|b|, u, d), |b|) <= Key(b, Advance(|b|, v, d), |b|) ==> Key(b, u, |b|) <= Key(b, v, |b|)
  {
    KeyOrder(b, u, v, d, |b| - d);
    KeyOrder(b, Advance(|b|, u, d), Advance(|b|, v, d), |b| - d, d);
  }

  /** Whether the rotation u is greater than v, which it agrees with for d characters. */
  method Greater(u: nat, v: nat, d: nat, block: array<nat>, quadrant: array<nat>, nblock: nat, budget_: int, ghost b: seq<Byte>)
    returns (gt: bool, budget: int)
    requires nblock == |b| && BlockIs(b, block[..]) && QuadOk(b, quadrant[..]) && d <= MAX_DEPTH
    requires u < nblock && v < nblock && d <= |b| && Key(b, u, d) == Key(b, v, d)
    ensures budget <= budget_
    ensures gt ==> Keys(b)[u] >= Keys(b)[v]
    ensures !gt ==> Keys(b)[u] <= Keys(b)[v]
  {
    hide Key, BlockIs, QuadOk;
    BlockSize(b, block[..]);
    gt, budget := MainGtU(u + d, v + d, block, quadrant, nblock, budget_, b);
    DeepOrder(b, u, v, d);
    DeepOrder(b, v, u, d);
  }

  // ---- Sinking one element to the left ----

  /** v, taken from i, would stand at j; what lies between has moved right by h. Sorted so far if h is 1. */
  ghost predicate SunkLeft(keys: seq<nat>, was: seq<nat>, cur: seq<nat>, i: nat, j: nat) {
    && j <= i < |was| == |cur| && cur[j] == was[i] && InRange(was, |keys|) && InRange(cur, |keys|)
    && (forall k :: 0 <= k < |was| && !(j <= k <= i) ==> cur[k] == was[k])
    && (forall k :: j < k <= i ==> cur[k] == was[k - 1] && keys[was[i]] <= keys[cur[k]])
  }

  lemma SunkLeftSorted(keys: seq<nat>, was: seq<nat>, cur: seq<nat>, lo: int, i: nat, j: nat)
    requires SunkLeft(keys, was, cur, i, j) && 0 <= lo <= j && Sorted(keys, was, lo, i - 1)
    requires j > lo ==> keys[was[j - 1]] <= keys[was[i]]
    ensures Sorted(keys, cur, lo, i)
  {
    forall x, y | lo <= x < y <= i ensures keys[cur[x]] <= keys[cur[y]] {
      if y < j {
        assert cur[x] == was[x] && cur[y] == was[y];
      } else if y == j {
        assert cur[x] == was[x];
        assert x == j - 1 || keys[was[x]] <= keys[was[j - 1]];
      } else if x < j {
        assert cur[x] == was[x] && cur[y] == was[y - 1];
      } else if x > j {
        assert cur[x] == was[x - 1] && cur[y] == was[y - 1];
      }
    }
  }

  lemma SunkLeftBelow(keys: seq<nat>, was: seq<nat>, cur: seq<nat>, i: nat, j: nat)
    requires SunkLeft(keys, was, cur, i, j) && j > 0
    ensures |cur| == |was| && cur[j - 1] == was[j - 1] && i < |was| && was[j - 1] < |keys| && was[i] < |keys| && cur[j] == was[i]
  {
  }

  lemma SunkLeftStep(keys: seq<nat>, was: seq<nat>, cur: seq<nat>, i: nat, j: nat)
    requires SunkLeft(keys, was, cur, i, j) && j > 0 && keys[was[j - 1]] >= keys[was[i]]
    ensures SunkLeft(keys, was, cur[j := cur[j - 1]][j - 1 := cur[j]], i, j - 1)
  {
  }

  /** The state of the sinking, at any stride. */
  ghost predicate SinkingLeft(keys: seq<nat>, was: seq<nat>, s: seq<nat>, cur: seq<nat>, lo: int, hi: int, i: nat, j: nat, h: nat) {
    && i < |was| && Hole(s, cur, j, was[i]) && RangePermutation(was, cur, lo, hi)
    && InRange(was, |keys|) && InRange(cur, |keys|)
    && (h == 1 ==> SunkLeft(keys, was, cur, i, j))
  }

  lemma SinkingLeftStarts(keys: seq<nat>, was: seq<nat>, lo: int, hi: int, i: nat, h: nat)
    requires InRange(was, |keys|) && i < |was|
    ensures SinkingLeft(keys, was, was, was, lo, hi, i, i, h)
  {
  }

  lemma SinkingLeftStep(keys: seq<nat>, was: seq<nat>, s: seq<nat>, cur: seq<nat>, lo: int, hi: int, i: nat, j: nat, h: nat)
    requires i < |was| && SinkingLeft(keys, was, s, cur, lo, hi, i, j, h) && 0 < h && lo + h <= j <= i <= hi < |was| && lo >= 0
    requires |s| == |was| && s[j - h] < |keys| && was[i] < |keys| && keys[s[j - h]] >= keys[was[i]]
    ensures |cur| == |was|
    ensures SinkingLeft(keys, was, s[j := s[j - h]], cur[j := cur[j - h]][j - h := was[i]], lo, hi, i, j - h, h)
  {
    hide RangePermutation, InRange, SunkLeft;
    HoleMoves(was, s, cur, j, j - h, was[i], lo, hi);
    var cur' := cur[j := cur[j - h]][j - h := was[i]];
    RangeInRange(was, cur', lo, hi, |keys|);
    if h == 1 {
      SunkLeftBelow(keys, was, cur, i, j);
      assert cur[j - 1] == was[j - 1];
      SunkLeftStep(keys, was, cur, i, j);
      assert cur' == cur[j := cur[j - 1]][j - 1 := cur[j]];
    }
  }

  lemma SinkingLeftParts(keys: seq<nat>, was: seq<nat>, s: seq<nat>, cur: seq<nat>, lo: int, hi: int, i: nat, j: nat, h: nat)
    requires i < |was| && SinkingLeft(keys, was, s, cur, lo, hi, i, j, h)
    ensures |s| == |was| == |cur| && RangePermutation(was, cur, lo, hi) && s[j := was[i]] == cur
    ensures forall k :: 0 <= k < |s| && k != j ==> s[k] == cur[k]
  {
  }

  lemma SinkingLeftEnds(keys: seq<nat>, was: seq<nat>, s: seq<nat>, cur: seq<nat>, lo: int, hi: int, i: nat, j: nat, h: nat)
    requires i < |was| && SinkingLeft(keys, was, s, cur, lo, hi, i, j, h) && h == 1 && 0 <= lo <= j <= i && Sorted(keys, was, lo, i - 1)
    requires j > lo ==> |s| == |was| && s[j - 1] < |keys| && was[i] < |keys| && keys[s[j - 1]] <= keys[was[i]]
    ensures InRange(cur, |keys|) && i < |cur| && Sorted(keys, cur, lo, i)
  {
    if j > lo {
      assert s[j - 1] == cur[j - 1] == was[j - 1];
    }
    SunkLeftSorted(keys, was, cur, lo, i, j);
  }

  /** Sinks the element at i past greater ones, in steps of h; at steps of one into a sorted range. */
  method SinkLeft(ptr: array<nat>, block: array<nat>, quadrant: array<nat>, nblock: nat, lo: int, hi: int, i: int, h: nat, d: nat,
                  budget_: int, ghost b: seq<Byte>)
    returns (budget: int)
    requires ptr != block && ptr != quadrant && h > 0 && lo + h <= i <= hi && d <= MAX_DEPTH
    requires nblock == |b| && BlockIs(b, block[..]) && QuadOk(b, quadrant[..])
    requires Shares(b, ptr[..], lo, hi, d) && InRange(ptr[..], nblock)
    modifies ptr
    ensures budget <= budget_ && RangePermutation(old(ptr[..]), ptr[..], lo, hi) && InRange(ptr[..], nblock)
    ensures 0 <= lo && hi < ptr.Length
    ensures h == 1 && Sorted(Keys(b), old(ptr[..]), lo, i - 1) ==> Sorted(Keys(b), ptr[..], lo, i)
  {
    hide Key, BlockIs, QuadOk, Shares, InRange, RangePermutation, SinkingLeft, Sorted, Keys;
    ghost var keys, was, cur := Keys(b), ptr[..], ptr[..];
    SharesAt(b, was, lo, hi, d, i, i);
    SinkingLeftStarts(keys, was, lo, hi, i, h);
    budget := budget_;
    var v := ptr[i];
    var j: nat := i;
    ghost var stopped := false;
    while j > lo + h - 1
      invariant lo <= j <= i && budget <= budget_ && SinkingLeft(keys, was, ptr[..], cur, lo, hi, i, j, h)
      decreases j
    {
      SinkingLeftParts(keys, was, ptr[..], cur, lo, hi, i, j, h);
      SharesStay(b, was, cur, lo, hi, d);
      SharesAt(b, cur, lo, hi, d, j - h, j);
      assert cur[j] == v && cur[j - h] == ptr[j - h];
      var gt;
      gt, budget := Greater(ptr[j - h], v, d, block, quadrant, nblock, budget, b);
      stopped := !gt;
      if !gt { break; }
      SinkingLeftStep(keys, was, ptr[..], cur, lo, hi, i, j, h);
      cur := cur[j := cur[j - h]][j - h := v];
      ghost var s := ptr[..];
      ptr[j] := ptr[j - h];
      assert ptr[..] == s[j := s[j - h]];
      j := j - h;
    }
    SinkingLeftParts(keys, was, ptr[..], cur, lo, hi, i, j, h);
    if h == 1 && Sorted(keys, was, lo, i - 1) {
      SinkingLeftEnds(keys, was, ptr[..], cur, lo, hi, i, j, h);
    }
    ptr[j] := v;
    assert ptr[..] == cur;
    RangeStays(was, cur, nblock);
  }

  // ---- The sort ----

  const INCS: seq<nat> := [1, 4, 13, 40, 121, 364, 1093, 3280, 9841, 29524, 88573, 265720, 797161, 2391484]

  /** One pass at stride h; at stride one the segment ends up sorted, unless the budget runs out. */
  method StridePass(ptr: array<nat>, block: array<nat>, quadrant: array<nat>, nblock: nat, lo: int, hi: int, h: nat, d: nat,
                    budget_: int, ghost b: seq<Byte>)
    returns (budget: int, abandoned: bool)
    requires ptr != block && ptr != quadrant && h > 0 && lo <= hi && d <= MAX_DEPTH
    requires nblock == |b| && BlockIs(b, block[..]) && QuadOk(b, quadrant[..])
    requires Shares(b, ptr[..], lo, hi, d) && InRange(ptr[..], nblock)
    modifies ptr
    ensures budget <= budget_ && RangePermutation(old(ptr[..]), ptr[..], lo, hi) && InRange(ptr[..], nblock)
    ensures 0 <= lo && hi < ptr.Length
    ensures abandoned ==> budget < 0
    ensures h == 1 && !abandoned ==> Sorted(Keys(b), ptr[..], lo, hi)
  {
    hide Key, BlockIs, QuadOk, Shares, InRange, RangePermutation, Keys;
    ghost var was := ptr[..];
    SharesAt(b, was, lo, hi, d, lo, lo);
    RangeSame(was, lo, hi);
    budget := budget_;
    var i: nat, copies := lo + h, 0;
    while i <= hi
      invariant lo + h <= i && (i <= hi + 1 || i == lo + h) && budget <= budget_ && 0 <= copies < 3
      invariant RangePermutation(was, ptr[..], lo, hi) && InRange(ptr[..], nblock)
      invariant h == 1 ==> Sorted(Keys(b), ptr[..], lo, i - 1)
    {
      ghost var before := ptr[..];
      SharesStay(b, was, before, lo, hi, d);
      budget := SinkLeft(ptr, block, quadrant, nblock, lo, hi, i, h, d, budget, b);
      RangeChain(was, before, ptr[..], lo, hi, lo, hi);
      i := i + 1;
      copies := copies + 1;
      if copies == 3 {
        if budget < 0 { return budget, true; }
        copies := 0;
      }
    }
    abandoned := false;
  }

  /** Sorts a segment whose rotations agree for d characters, unless the budget runs out. */
  method MainSimpleSort(ptr: array<nat>, block: array<nat>, quadrant: array<nat>, nblock: nat, lo: int, hi: int, d: nat,
                        budget_: int, ghost b: seq<Byte>)
    returns (budget: int)
    requires ptr != block && ptr != quadrant && 0 <= lo <= hi + 1 && hi < ptr.Length && hi - lo < 900000 && d <= MAX_DEPTH
    requires nblock == |b| && BlockIs(b, block[..]) && QuadOk(b, quadrant[..])
    requires Shares(b, ptr[..], lo, hi, d) && InRange(ptr[..], nblock)
    modifies ptr
    ensures budget <= budget_ && RangePermutation(old(ptr[..]), ptr[..], lo, hi) && InRange(ptr[..], nblock)
    ensures budget >= 0 ==> Sorted(Keys(b), ptr[..], lo, hi)
  {
    hide Key, BlockIs, QuadOk, Shares, InRange, RangePermutation, Keys;
    ghost var was := ptr[..];
    RangeSame(was, lo, hi);
    budget := budget_;
    var bigN := hi - lo + 1;
    if bigN < 2 { return; }
    var hp: int := 0;
    assert INCS[13] == 2391484 && INCS[0] == 1;
    while INCS[hp] < bigN
      invariant 0 <= hp < 14 && (hp > 0 ==> INCS[hp - 1] < bigN)
      decreases 14 - hp
    {
      hp := hp + 1;
    }
    hp := hp - 1;
    ghost var sorted := false;
    while hp >= 0
      invariant -1 <= hp < 13 && budget <= budget_ && (hp == -1 ==> sorted)
      invariant RangePermutation(was, ptr[..], lo, hi) && InRange(ptr[..], nblock)
      invariant sorted ==> Sorted(Keys(b), ptr[..], lo, hi)
    {
      ghost var before := ptr[..];
      SharesStay(b, was, before, lo, hi, d);
      var abandoned;
      budget, abandoned := StridePass(ptr, block, quadrant, nblock, lo, hi, INCS[hp], d, budget, b);
      RangeChain(was, before, ptr[..], lo, hi, lo, hi);
      if abandoned { return; }
      sorted := hp == 0;
      hp := hp - 1;
    }
  }
}

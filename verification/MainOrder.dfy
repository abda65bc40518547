/** The order in which the main sort takes the big buckets, the smallest first. */
module MainOrder {
  import opened Permutations
  import opened SegmentSort
  import opened MainSimple
  import opened MainBuckets

  /** Sizes of the big buckets, in a table of small-bucket starts. */
  ghost predicate Sizes(ftab: seq<nat>, freqs: seq<nat>) {
    |ftab| == PAIRS + 1 && |freqs| == 256 && forall c :: 0 <= c < 256 ==> ftab[c * 256] + freqs[c] == ftab[(c + 1) * 256]
  }

  method BigFreq(ftab: array<nat>, c: nat, ghost freqs: seq<nat>) returns (f: int)
    requires Sizes(ftab[..], freqs) && c < 256
    ensures f == freqs[c]
  {
    assert ftab[..][(c + 1) * 256] == ftab[(c + 1) * 256] && ftab[..][c * 256] == ftab[c * 256];
    var end: int := ftab[(c + 1) * 256];
    f := end - ftab[c * 256];
  }

  /** Whether the bucket h places before j is larger than vv. */
  method LargerBefore(order: array<nat>, ftab: array<nat>, j: nat, h: nat, vv: nat, ghost freqs: seq<nat>, ghost cur: seq<nat>) returns (more: bool)
    requires h <= j && j < order.Length == |cur| && 0 < h && Sizes(ftab[..], freqs) && vv < 256
    requires InRange(cur, 256) && forall k :: 0 <= k < |cur| && k != j ==> order[k] == cur[k]
    ensures order[j - h] < 256 && (more <==> freqs[order[j - h]] > freqs[vv])
  {
    assert order[j - h] == cur[j - h];
    var f := BigFreq(ftab, order[j - h], freqs);
    var g := BigFreq(ftab, vv, freqs);
    more := f > g;
  }

  method SinkOrder(order: array<nat>, ftab: array<nat>, i: nat, h: nat, ghost freqs: seq<nat>)
    requires order != ftab && order.Length == 256 && 0 < h <= i <= 255 && Sizes(ftab[..], freqs) && InRange(order[..], |freqs|)
    modifies order
    ensures RangePermutation(old(order[..]), order[..], 0, 255) && InRange(order[..], |freqs|)
    ensures h == 1 && Sorted(freqs, old(order[..]), 0, i - 1) ==> Sorted(freqs, order[..], 0, i)
  {
    hide Sizes, SinkingLeft, Sorted, RangePermutation;
    ghost var was, cur := order[..], order[..];
    SizesLength(ftab[..], freqs);
    SinkingLeftStarts(freqs, was, 0, 255, i, h);
    var vv, j: nat := order[i], i;
    assert vv == was[i];
    ghost var more := true;
    while j >= h
      invariant j <= i && SinkingLeft(freqs, was, order[..], cur, 0, 255, i, j, h)
      decreases j
    {
      SinkingLeftParts(freqs, was, order[..], cur, 0, 255, i, j, h);
      RangeInRange(was, cur, 0, 255, 256);
      var larger := LargerBefore(order, ftab, j, h, vv, freqs, cur);
      more := larger;
      if !larger { break; }
      SinkingLeftStep(freqs, was, order[..], cur, 0, 255, i, j, h);
      cur := cur[j := cur[j - h]][j - h := vv];
      ghost var s := order[..];
      order[j] := order[j - h];
      assert order[..] == s[j := s[j - h]];
      j := j - h;
    }
    SinkingLeftParts(freqs, was, order[..], cur, 0, 255, i, j, h);
    RangeInRange(was, cur, 0, 255, 256);
    if h == 1 && Sorted(freqs, was, 0, i - 1) {
      SinkingLeftEnds(freqs, was, order[..], cur, 0, 255, i, j, h);
    }
    order[j] := vv;
    assert order[..] == cur;
  }

  lemma SizesLength(ftab: seq<nat>, freqs: seq<nat>)
    requires Sizes(ftab, freqs)
    ensures |freqs| == 256
  {
  }

  /** Every big bucket once, in ascending order of size. */
  method RunningOrder(ftab: array<nat>, ghost freqs: seq<nat>) returns (order: array<nat>)
    requires Sizes(ftab[..], freqs)
    ensures fresh(order) && order.Length == 256 && IsPermutation(order[..], 256) && InRange(order[..], |freqs|)
    ensures Sorted(freqs, order[..], 0, 255)
  {
    hide Sizes, RangePermutation;
    SizesLength(ftab[..], freqs);
    order := new nat[256](k => k);
    ghost var was := order[..];
    assert was == Iota(256);
    RangeSame(was, 0, 255);
    var h: nat := 1;
    h := 3 * h + 1;
    while h <= 256
      invariant h in {4, 13, 40, 121, 364}
      decreases 364 - h
    {
      h := 3 * h + 1;
    }
    while h != 1
      invariant h in {1, 4, 13, 40, 121, 364}
      invariant RangePermutation(was, order[..], 0, 255) && InRange(order[..], |freqs|)
      invariant h == 1 ==> Sorted(freqs, order[..], 0, 255)
    {
      h := h / 3;
      OrderPass(order, ftab, h, freqs, was);
    }
    RangeSameElements(was, order[..]);
  }

  lemma RangeSameElements(s: seq<nat>, t: seq<nat>)
    requires RangePermutation(s, t, 0, 255)
    ensures multiset(s) == multiset(t)
  {
  }

  method OrderPass(order: array<nat>, ftab: array<nat>, h: nat, ghost freqs: seq<nat>, ghost was: seq<nat>)
    requires order != ftab && order.Length == 256 && 0 < h <= 255 && Sizes(ftab[..], freqs) && InRange(order[..], |freqs|)
    requires RangePermutation(was, order[..], 0, 255) && |freqs| == 256
    modifies order
    ensures RangePermutation(was, order[..], 0, 255) && InRange(order[..], |freqs|)
    ensures h == 1 ==> Sorted(freqs, order[..], 0, 255)
  {
    hide Sizes, RangePermutation;
    var i := h;
    while i <= 255
      invariant h <= i <= 256 && RangePermutation(was, order[..], 0, 255) && InRange(order[..], |freqs|)
      invariant h == 1 ==> Sorted(freqs, order[..], 0, i - 1)
    {
      ghost var before := order[..];
      SinkOrder(order, ftab, i, h, freqs);
      RangeChain(was, before, order[..], 0, 255, 0, 255);
      i := i + 1;
    }
  }
}

/** Comparing two rotations in the main sort, twelve characters first, then characters and quadrants. */
module MainCompare {
  import opened Permutations
  import opened Rotations

  const OVERSHOOT := 34
  /** How far in a rotation a comparison may start. */
  const MAX_DEPTH := 15

  /** The block with its first characters repeated behind it. */
  ghost predicate BlockIs(b: seq<Byte>, block: seq<nat>) {
    && |b| > OVERSHOOT && |block| == |b| + OVERSHOOT
    && (forall i :: 0 <= i < |b| ==> block[i] == b[i])
    && forall i :: |b| <= i < |b| + OVERSHOOT ==> block[i] == b[i - |b|]
  }

  /** Where quadrants differ at equal characters, they tell the order of the rotations from there. */
  ghost predicate QuadOk(b: seq<Byte>, quadrant: seq<nat>) {
    && |quadrant| == |b| + OVERSHOOT && |b| > OVERSHOOT
    && (forall i :: |b| <= i < |b| + OVERSHOOT ==> quadrant[i] == quadrant[i - |b|])
    && forall i, j :: 0 <= i < |b| && 0 <= j < |b| && b[i] == b[j] && quadrant[i] < quadrant[j] ==>
         Key(b, i, |b|) <= Key(b, j, |b|)
  }

  /** The position i stands for, i being at most one round ahead. */
  function Wrapped(n: nat, i: nat): (p: nat)
    requires i < 2 * n
    ensures p < n
  {
    if i < n then i else i - n
  }

  /** The rotations from i1 and i2 compare as those g characters on do. */
  ghost predicate Reduced(b: seq<Byte>, x: nat, y: nat, i1: nat, i2: nat) {
    && x < |b| && y < |b| && i1 < |b| && i2 < |b|
    && (Key(b, i1, |b|) <= Key(b, i2, |b|) ==> Key(b, x, |b|) <= Key(b, y, |b|))
    && (Key(b, i1, |b|) >= Key(b, i2, |b|) ==> Key(b, x, |b|) >= Key(b, y, |b|))
  }

  /** One character more that is alike. */
  lemma ReducedNext(b: seq<Byte>, x: nat, y: nat, i1: nat, i2: nat)
    requires Reduced(b, x, y, i1, i2) && b[i1] == b[i2]
    ensures Reduced(b, x, y, Next(|b|, i1), Next(|b|, i2))
  {
    NextOrder(b, i1, i2);
    NextOrder(b, i2, i1);
  }

  /** Behind the same character, rotations that are in order stay so. */
  lemma NextOrder(b: seq<Byte>, i: nat, j: nat)
    requires i < |b| && j < |b| && b[i] == b[j]
    ensures Key(b, Next(|b|, i), |b|) <= Key(b, Next(|b|, j), |b|) ==> Key(b, i, |b|) <= Key(b, j, |b|)
  {
    var n := |b|;
    KeyHead(b, i, j, n);
    KeyOrder(b, Next(n, i), Next(n, j), n - 1, 1);
  }

  /** The first characters decide. */
  lemma FirstDecides(b: seq<Byte>, i: nat, j: nat)
    requires i < |b| && j < |b|
    ensures b[i] < b[j] ==> Key(b, i, |b|) < Key(b, j, |b|)
  {
    KeyHead(b, i, j, |b|);
  }

  /** As many characters alike as the block has leave nothing to tell apart. */
  ghost predicate Alike(b: seq<Byte>, x: nat, y: nat, g: nat)
    requires x < |b| && y < |b|
  {
    Key(b, x, if g < |b| then g else |b|) == Key(b, y, if g < |b| then g else |b|)
  }

  lemma AlikeNext(b: seq<Byte>, x: nat, y: nat, g: nat)
    requires x < |b| && y < |b| && Alike(b, x, y, g)
    requires g < |b| ==> b[Advance(|b|, x, g)] == b[Advance(|b|, y, g)]
    ensures Alike(b, x, y, g + 1)
  {
    if g < |b| {
      KeyOrder(b, x, y, g, 1);
      assert Key(b, Advance(|b|, x, g), 1) == b[Advance(|b|, x, g)] && Key(b, Advance(|b|, y, g), 1) == b[Advance(|b|, y, g)] by {
        assert Pow256(0) == 1;
      }
    }
  }

  /** The place in the rotation from x that i stands for, g characters having been compared. */
  ghost predicate At(b: seq<Byte>, x: nat, i: nat, g: nat) {
    x < |b| && i <= |b| + OVERSHOOT && |b| > OVERSHOOT && (g < |b| ==> Wrapped(|b|, i) == Advance(|b|, x, g))
  }

  lemma AtNext(b: seq<Byte>, x: nat, i: nat, g: nat)
    requires At(b, x, i, g) && i < |b| + OVERSHOOT
    ensures At(b, x, i + 1, g + 1) && Wrapped(|b|, i + 1) == Next(|b|, Wrapped(|b|, i))
  {
  }

  lemma AtWrapped(b: seq<Byte>, x: nat, i: nat, g: nat)
    requires At(b, x, i, g)
    ensures At(b, x, Wrapped(|b|, i), g) && Wrapped(|b|, Wrapped(|b|, i)) == Wrapped(|b|, i)
  {
  }

  /** What a comparison has found: alike so far, and what is ahead decides. */
  ghost predicate Comparing(b: seq<Byte>, x: nat, y: nat, i1: nat, i2: nat, g: nat) {
    && At(b, x, i1, g) && At(b, y, i2, g) && Alike(b, x, y, g)
    && Reduced(b, x, y, Wrapped(|b|, i1), Wrapped(|b|, i2))
  }

  lemma CompareNext(b: seq<Byte>, x: nat, y: nat, i1: nat, i2: nat, g: nat)
    requires Comparing(b, x, y, i1, i2, g) && i1 < |b| + OVERSHOOT && i2 < |b| + OVERSHOOT
    requires b[Wrapped(|b|, i1)] == b[Wrapped(|b|, i2)]
    ensures Comparing(b, x, y, i1 + 1, i2 + 1, g + 1)
  {
    hide Key;
    AtNext(b, x, i1, g);
    AtNext(b, y, i2, g);
    AlikeNext(b, x, y, g);
    ReducedNext(b, x, y, Wrapped(|b|, i1), Wrapped(|b|, i2));
  }

  /** What a difference tells. */
  lemma CompareDiffers(b: seq<Byte>, x: nat, y: nat, i1: nat, i2: nat, g: nat)
    requires Comparing(b, x, y, i1, i2, g)
    ensures var p, q := Wrapped(|b|, i1), Wrapped(|b|, i2);
            && (b[p] < b[q] ==> Key(b, x, |b|) <= Key(b, y, |b|))
            && (b[p] > b[q] ==> Key(b, x, |b|) >= Key(b, y, |b|))
  {
    FirstDecides(b, Wrapped(|b|, i1), Wrapped(|b|, i2));
    FirstDecides(b, Wrapped(|b|, i2), Wrapped(|b|, i1));
  }

  lemma CompareQuadrants(b: seq<Byte>, quadrant: seq<nat>, x: nat, y: nat, i1: nat, i2: nat, g: nat)
    requires Comparing(b, x, y, i1, i2, g) && i1 < |b| + OVERSHOOT && i2 < |b| + OVERSHOOT && QuadOk(b, quadrant) && b[Wrapped(|b|, i1)] == b[Wrapped(|b|, i2)]
    ensures quadrant[i1] < quadrant[i2] ==> Key(b, x, |b|) <= Key(b, y, |b|)
    ensures quadrant[i1] > quadrant[i2] ==> Key(b, x, |b|) >= Key(b, y, |b|)
  {
    hide Key;
    var p, q := Wrapped(|b|, i1), Wrapped(|b|, i2);
    assert quadrant[i1] == quadrant[p] && quadrant[i2] == quadrant[q];
  }

  lemma CharAt(b: seq<Byte>, block: seq<nat>, i: nat)
    requires BlockIs(b, block) && i < |b| + OVERSHOOT
    ensures |block| == |b| + OVERSHOOT && block[i] == b[Wrapped(|b|, i)]
  {
  }

  /** k characters in a row, without their quadrants. */
  method CompareChars(i1: nat, i2: nat, block: array<nat>, k: nat, ghost b: seq<Byte>, ghost x: nat, ghost y: nat)
    returns (decided: bool, gt: bool)
    requires BlockIs(b, block[..]) && Comparing(b, x, y, i1, i2, 0)
    requires i1 + k <= |b| + OVERSHOOT && i2 + k <= |b| + OVERSHOOT
    ensures decided && gt ==> Key(b, x, |b|) >= Key(b, y, |b|)
    ensures decided && !gt ==> Key(b, x, |b|) <= Key(b, y, |b|)
    ensures !decided ==> Comparing(b, x, y, i1 + k, i2 + k, k)
  {
    hide Comparing, Key, BlockIs;
    for t := 0 to k
      invariant Comparing(b, x, y, i1 + t, i2 + t, t)
    {
      CharAt(b, block[..], i1 + t);
      CharAt(b, block[..], i2 + t);
      assert block[..][i1 + t] == block[i1 + t] && block[..][i2 + t] == block[i2 + t];
      CompareDiffers(b, x, y, i1 + t, i2 + t, t);
      var c1, c2 := block[i1 + t], block[i2 + t];
      if c1 != c2 { return true, c1 > c2; }
      CompareNext(b, x, y, i1 + t, i2 + t, t);
    }
    decided, gt := false, false;
  }

  /** Eight characters in a row, each followed by its quadrant. */
  method CompareEight(i1: nat, i2: nat, block: array<nat>, quadrant: array<nat>, ghost b: seq<Byte>, ghost x: nat, ghost y: nat, ghost g: nat)
    returns (decided: bool, gt: bool)
    requires BlockIs(b, block[..]) && QuadOk(b, quadrant[..]) && Comparing(b, x, y, i1, i2, g)
    requires i1 + 8 <= |b| + OVERSHOOT && i2 + 8 <= |b| + OVERSHOOT
    ensures decided && gt ==> Key(b, x, |b|) >= Key(b, y, |b|)
    ensures decided && !gt ==> Key(b, x, |b|) <= Key(b, y, |b|)
    ensures !decided ==> Comparing(b, x, y, i1 + 8, i2 + 8, g + 8)
  {
    hide Comparing, Key, BlockIs, QuadOk;
    QuadSize(b, quadrant[..]);
    for t := 0 to 8
      invariant Comparing(b, x, y, i1 + t, i2 + t, g + t)
    {
      CharAt(b, block[..], i1 + t);
      CharAt(b, block[..], i2 + t);
      assert block[..][i1 + t] == block[i1 + t] && block[..][i2 + t] == block[i2 + t];
      CompareDiffers(b, x, y, i1 + t, i2 + t, g + t);
      var c1, c2 := block[i1 + t], block[i2 + t];
      if c1 != c2 { return true, c1 > c2; }
      CompareQuadrants(b, quadrant[..], x, y, i1 + t, i2 + t, g + t);
      assert quadrant[..][i1 + t] == quadrant[i1 + t] && quadrant[..][i2 + t] == quadrant[i2 + t];
      var s1, s2 := quadrant[i1 + t], quadrant[i2 + t];
      if s1 != s2 { return true, s1 > s2; }
      CompareNext(b, x, y, i1 + t, i2 + t, g + t);
    }
    decided, gt := false, false;
  }

  lemma QuadSize(b: seq<Byte>, quadrant: seq<nat>)
    requires QuadOk(b, quadrant)
    ensures |quadrant| == |b| + OVERSHOOT
  {
  }

  lemma CompareStarts(b: seq<Byte>, x: nat, y: nat)
    requires x < |b| + OVERSHOOT && y < |b| + OVERSHOOT && |b| > OVERSHOOT
    ensures Comparing(b, Wrapped(|b|, x), Wrapped(|b|, y), x, y, 0)
  {
  }

  lemma CompareWraps(b: seq<Byte>, x: nat, y: nat, i1: nat, i2: nat, g: nat)
    requires Comparing(b, x, y, i1, i2, g)
    ensures Comparing(b, x, y, Wrapped(|b|, i1), Wrapped(|b|, i2), g)
  {
    hide Key;
    AtWrapped(b, x, i1, g);
    AtWrapped(b, y, i2, g);
  }

  lemma CompareEnds(b: seq<Byte>, x: nat, y: nat, i1: nat, i2: nat, g: nat)
    requires Comparing(b, x, y, i1, i2, g) && g >= |b|
    ensures Key(b, x, |b|) == Key(b, y, |b|)
  {
  }

  /**
   * Whether the rotation from i1 is greater than that from i2; for rotations alike either answer may come.
   * Nothing beyond the repeated characters is read.
   */
  method MainGtU(i1_: nat, i2_: nat, block: array<nat>, quadrant: array<nat>, nblock: nat, budget_: int, ghost b: seq<Byte>)
    returns (gt: bool, budget: int)
    requires nblock == |b| && BlockIs(b, block[..]) && QuadOk(b, quadrant[..])
    requires i1_ < nblock + MAX_DEPTH && i2_ < nblock + MAX_DEPTH
    ensures budget <= budget_
    ensures gt ==> Key(b, Wrapped(nblock, i1_), nblock) >= Key(b, Wrapped(nblock, i2_), nblock)
    ensures !gt ==> Key(b, Wrapped(nblock, i1_), nblock) <= Key(b, Wrapped(nblock, i2_), nblock)
  {
    hide Comparing, Key, BlockIs, QuadOk;
    BlockSize(b, block[..]);
    ghost var x, y := Wrapped(nblock, i1_), Wrapped(nblock, i2_);
    var i1: nat, i2: nat := i1_, i2_;
    budget := budget_;
    CompareStarts(b, i1, i2);
    var decided;
    decided, gt := CompareChars(i1, i2, block, 12, b, x, y);
    if decided { return; }
    i1, i2 := i1 + 12, i2 + 12;
    var k: int := nblock + 8;
    ghost var g := 12;
    while true
      invariant i1 < nblock + MAX_DEPTH + 12 && i2 < nblock + MAX_DEPTH + 12 && budget <= budget_ && k >= 0
      invariant Comparing(b, x, y, i1, i2, g) && g + k >= nblock + 20
      decreases k
    {
      decided, gt := CompareEight(i1, i2, block, quadrant, b, x, y, g);
      if decided { return; }
      i1, i2, g := i1 + 8, i2 + 8, g + 8;
      CompareWraps(b, x, y, i1, i2, g);
      if i1 >= nblock { i1 := i1 - nblock; }
      if i2 >= nblock { i2 := i2 - nblock; }
      k := k - 8;
      budget := budget - 1;
      if k < 0 { break; }
    }
    CompareEnds(b, x, y, i1, i2, g);
    gt := false;
  }

  lemma BlockSize(b: seq<Byte>, block: seq<nat>)
    requires BlockIs(b, block)
    ensures |b| > OVERSHOOT && |block| == |b| + OVERSHOOT
  {
  }
}

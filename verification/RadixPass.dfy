/** The one-character bucket sort that starts the fallback sort. */
module RadixPass {
  import opened Permutations
  import opened ByteView

  /** How many elements of b are below c: where bucket c starts. */
  function Below(b: seq<int>, c: nat): nat {
    if c == 0 then 0 else Below(b, c - 1) + multiset(b)[c - 1]
  }

  lemma {:induction false} BelowMonotone(b: seq<int>, c: nat, d: nat)
    requires c <= d
    ensures Below(b, c) <= Below(b, d)
    decreases d
  {
    if c < d {
      BelowMonotone(b, c, d - 1);
    }
  }

  lemma {:induction false} BelowAdd(b: seq<int>, x: nat, c: nat)
    ensures Below(b + [x], c) == Below(b, c) + if x < c then 1 else 0
  {
    if c > 0 {
      BelowAdd(b, x, c - 1);
    }
  }

  lemma {:induction false} BelowAll(b: seq<int>, k: nat)
    requires forall i :: 0 <= i < |b| ==> 0 <= b[i] < k
    ensures Below(b, k) == |b|
  {
    if b == [] {
      BelowEmpty(k);
    } else {
      var t := b[..|b| - 1];
      BelowAll(t, k);
      assert b == t + [b[|b| - 1]];
      BelowAdd(t, b[|b| - 1], k);
    }
  }

  lemma {:induction false} BelowEmpty(c: nat)
    ensures Below([], c) == 0
  {
    if c > 0 {
      BelowEmpty(c - 1);
    }
  }

  /** One past the last place of bucket c. */
  function End(b: seq<Byte>, c: Byte): nat {
    var next: nat := c + 1;
    Below(b, next)
  }

  lemma Buckets(b: seq<Byte>, c: Byte, d: Byte)
    ensures Below(b, c) + multiset(b)[c] == End(b, c) <= |b|
    ensures c < d ==> End(b, c) <= Below(b, d)
  {
    var next: nat := c + 1;
    BelowMonotone(b, next, 256);
    BelowAll(b, 256);
    if c < d {
      BelowMonotone(b, next, d);
    }
  }

  lemma PrefixCount(b: seq<Byte>, i: nat, c: Byte)
    requires i < |b|
    ensures multiset(b[..i + 1])[c] == multiset(b[..i])[c] + if b[i] == c then 1 else 0
    ensures multiset(b[..i + 1])[c] <= multiset(b)[c]
  {
    assert b[..i + 1] == b[..i] + [b[i]];
    assert b == b[..i + 1] + b[i + 1..];
  }

  /**
   * Where the first i positions have been put: position p sits at pos[p], in
   * the bucket of its character, and ftab[c] is the lowest place taken in bucket c.
   */
  ghost predicate Placed(b: seq<Byte>, ftab: seq<nat>, fmap: seq<nat>, pos: seq<nat>, i: nat) {
    && |pos| == i <= |b| == |fmap| && |ftab| == 257
    && (forall c: Byte :: ftab[c] == End(b, c) - multiset(b[..i])[c])
    && forall p :: 0 <= p < i ==> ftab[b[p]] <= pos[p] < End(b, b[p]) <= |b| && fmap[pos[p]] == p
  }

  lemma PrefixCountBound(b: seq<Byte>, i: nat, c: Byte)
    requires i <= |b|
    ensures multiset(b[..i])[c] <= multiset(b)[c]
  {
    assert b == b[..i] + b[i..];
  }

  lemma FreshPlace(b: seq<Byte>, ftab: seq<nat>, fmap: seq<nat>, pos: seq<nat>, i: nat, p: nat)
    requires Placed(b, ftab, fmap, pos, i) && p < i < |b|
    ensures 0 < ftab[b[i]] && pos[p] != ftab[b[i]] - 1
  {
    var c, j := b[p], b[i];
    PrefixCount(b, i, j);
    PrefixCountBound(b, i, c);
    Buckets(b, c, j);
    Buckets(b, j, c);
  }

  lemma PlacedCounts(b: seq<Byte>, ftab: seq<nat>, i: nat)
    requires i < |b| && |ftab| == 257
    requires forall c: Byte :: ftab[c] == End(b, c) - multiset(b[..i])[c]
    ensures 0 < ftab[b[i]] <= |b|
    ensures forall c: Byte :: ftab[b[i] := ftab[b[i]] - 1][c] == End(b, c) - multiset(b[..i + 1])[c]
  {
    var j := b[i];
    Buckets(b, j, j);
    forall c: Byte ensures multiset(b[..i + 1])[c] == multiset(b[..i])[c] + if j == c then 1 else 0 {
      PrefixCount(b, i, c);
    }
    PrefixCount(b, i, j);
  }

  lemma PlacedStep(b: seq<Byte>, ftab: seq<nat>, fmap: seq<nat>, pos: seq<nat>, i: nat)
    requires Placed(b, ftab, fmap, pos, i) && i < |b|
    ensures 0 < ftab[b[i]] <= |b|
    ensures var j := b[i]; var k: nat := ftab[j] - 1;
            Placed(b, ftab[j := k], fmap[k := i], pos + [k], i + 1)
  {
    var j := b[i];
    PlacedCounts(b, ftab, i);
    var k: nat := ftab[j] - 1;
    Buckets(b, j, j);
    var ftab', fmap', pos' := ftab[j := k], fmap[k := i], pos + [k];
    forall p | 0 <= p < i + 1 ensures ftab'[b[p]] <= pos'[p] < End(b, b[p]) <= |b| && fmap'[pos'[p]] == p {
      hide Below, End;
      if p < i {
        FreshPlace(b, ftab, fmap, pos, i, p);
        assert pos'[p] == pos[p] != k;
      }
    }
  }

  /** fmap lists the positions by first character; bucket c starts at Below(b, c). */
  ghost predicate Bucketed(b: seq<Byte>, fmap: seq<nat>) {
    && IsPermutation(fmap, |b|) && |fmap| == |b|
    && forall k :: 0 <= k < |b| ==> fmap[k] < |b| && Below(b, b[fmap[k]]) <= k < End(b, b[fmap[k]])
  }

  lemma AllCounted(b: seq<Byte>, ftab: seq<nat>, c: Byte)
    requires |ftab| == 257 && ftab[c] == End(b, c) - multiset(b[..|b|])[c]
    ensures ftab[c] == Below(b, c)
  {
    assert b[..|b|] == b;
    Buckets(b, c, c);
  }

  lemma AllPlaced(b: seq<Byte>, ftab: seq<nat>, fmap: seq<nat>, pos: seq<nat>)
    requires Placed(b, ftab, fmap, pos, |b|)
    ensures Bucketed(b, fmap)
    ensures forall c: Byte :: ftab[c] == Below(b, c)
  {
    hide Below, End;
    forall c: Byte ensures ftab[c] == Below(b, c) {
      AllCounted(b, ftab, c);
    }
    InverseIsPermutation(fmap, pos, |b|);
    forall k | 0 <= k < |b| ensures fmap[k] < |b| && Below(b, b[fmap[k]]) <= k < End(b, b[fmap[k]]) {
      assert pos[fmap[k]] == k;
    }
  }

  lemma RowOrder(b: seq<Byte>, fmap: seq<nat>, k: nat, m: nat)
    requires Bucketed(b, fmap) && k < m < |b|
    ensures b[fmap[k]] <= b[fmap[m]]
    ensures b[fmap[k]] < b[fmap[m]] ==> k < Below(b, b[fmap[m]]) <= m
    ensures b[fmap[k]] == b[fmap[m]] ==> Below(b, b[fmap[m]]) <= k && m < End(b, b[fmap[m]])
  {
    hide Below, End;
    Buckets(b, b[fmap[m]], b[fmap[k]]);
    Buckets(b, b[fmap[k]], b[fmap[m]]);
  }

  lemma NoStartInside(b: seq<Byte>, x: Byte, a: nat, c: Byte)
    requires Below(b, x) < a < End(b, x)
    ensures Below(b, c) != a
  {
    Buckets(b, x, c);
    if c <= x {
      BelowMonotone(b, c, x);
    }
  }

  ghost predicate StartsBucket(b: seq<Byte>, a: nat) {
    exists c: Byte :: Below(b, c) == a
  }

  /** Neighbouring rows are in order of first character, and differ exactly at a bucket start. */
  lemma BucketEdges(b: seq<Byte>, fmap: seq<nat>, a: nat)
    requires Bucketed(b, fmap) && 0 < a < |b|
    ensures b[fmap[a - 1]] <= b[fmap[a]]
    ensures b[fmap[a - 1]] < b[fmap[a]] <==> StartsBucket(b, a)
  {
    var k, x := a - 1, b[fmap[a]];
    RowOrder(b, fmap, k, a);
    hide Bucketed, Below, End;
    if b[fmap[k]] < x {
      assert Below(b, x) == a;
    } else {
      forall c: Byte ensures Below(b, c) != a {
        NoStartInside(b, x, a, c);
      }
    }
  }

  /** The first i bytes have been counted. */
  ghost predicate Counting(b: seq<Byte>, ftab: seq<nat>, i: nat) {
    i <= |b| && |ftab| == 257 && ftab[256] == 0 && forall c: Byte :: ftab[c] == multiset(b[..i])[c]
  }

  lemma CountingStep(b: seq<Byte>, ftab: seq<nat>, i: nat)
    requires Counting(b, ftab, i) && i < |b|
    ensures |ftab| == 257 && Counting(b, ftab[b[i] := ftab[b[i]] + 1], i + 1)
  {
    var next := ftab[b[i] := ftab[b[i]] + 1];
    forall c: Byte ensures next[c] == multiset(b[..i + 1])[c] {
      PrefixCount(b, i, c);
    }
  }

  lemma CountingEnds(b: seq<Byte>, ftab: seq<nat>)
    requires Counting(b, ftab, |b|)
    ensures |ftab| == 257 && ftab[256] == 0 && forall c: Byte :: ftab[c] == multiset(b)[c]
  {
    assert b[..|b|] == b;
  }

  method CountBytes(eclass: array<nat>, nblock: nat, ghost b: seq<Byte>) returns (ftab: array<nat>)
    requires |b| == nblock <= 4 * eclass.Length && Bytes(eclass[..], nblock) == b
    ensures fresh(ftab) && ftab.Length == 257
    ensures ftab[256] == 0 && forall c: Byte :: ftab[c] == multiset(b)[c]
  {
    ftab := new nat[257](_ => 0);
    CountingStarts(b, ftab[..]);
    hide Counting;
    var i: nat := 0;
    while i < nblock
      invariant i <= nblock && Counting(b, ftab[..], i)
    {
      var ch := GetByte(eclass, i);
      assert ch == b[i] == Bytes(eclass[..], nblock)[i];
      ghost var was := ftab[..];
      CountingStep(b, was, i);
      ftab[ch] := ftab[ch] + 1;
      assert ftab[..] == was[ch := was[ch] + 1];
      i := i + 1;
    }
    CountingEnds(b, ftab[..]);
  }

  lemma CountingStarts(b: seq<Byte>, ftab: seq<nat>)
    requires |ftab| == 257 && forall c :: 0 <= c < 257 ==> ftab[c] == 0
    ensures Counting(b, ftab, 0)
  {
    assert b[..0] == [];
  }

  method CopyCounts(ftab: array<nat>) returns (ftabCopy: array<nat>)
    requires ftab.Length == 257
    ensures fresh(ftabCopy) && ftabCopy[..] == ftab[..256]
  {
    ftabCopy := new nat[256];
    var i := 0;
    while i < 256
      invariant i <= 256 && ftabCopy[..i] == ftab[..i]
    {
      ftabCopy[i] := ftab[i];
      i := i + 1;
    }
  }

  /** Turns counts into bucket ends by running sums. */
  method Accumulate(ftab: array<nat>, ghost b: seq<Byte>)
    requires ftab.Length == 257
    requires ftab[256] == 0 && forall c: Byte :: ftab[c] == multiset(b)[c]
    modifies ftab
    ensures forall c: Byte :: ftab[c] == End(b, c)
  {
    var i := 1;
    Buckets(b, 0, 0);
    while i < 257
      invariant 1 <= i <= 257
      invariant forall c: Byte :: c >= i ==> ftab[c] == multiset(b)[c]
      invariant forall c: Byte :: c < i ==> ftab[c] == End(b, c)
    {
      if i < 256 {
        Buckets(b, i, i);
      }
      ftab[i] := ftab[i] + ftab[i - 1];
      i := i + 1;
    }
  }

  method PlaceOne(fmap: array<nat>, ftab: array<nat>, i: nat, j: Byte, ghost b: seq<Byte>, ghost pos: seq<nat>)
    returns (k: nat)
    requires ftab != fmap && ftab.Length == 257
    requires i < |b| && j == b[i] && Placed(b, ftab[..], fmap[..], pos, i)
    modifies fmap, ftab
    ensures Placed(b, ftab[..], fmap[..], pos + [k], i + 1)
  {
    ghost var ftab0, fmap0 := ftab[..], fmap[..];
    PlacedStep(b, ftab0, fmap0, pos, i);
    k := ftab[j] - 1;
    ftab[j] := k;
    fmap[k] := i;
    assert ftab[..] == ftab0[j := k] && fmap[..] == fmap0[k := i];
  }

  /** Drops every position into its bucket. */
  method FillBuckets(fmap: array<nat>, eclass: array<nat>, ftab: array<nat>, nblock: nat, ghost b: seq<Byte>)
    requires fmap != eclass && ftab != fmap && ftab != eclass && fmap.Length == nblock && ftab.Length == 257
    requires |b| == nblock <= 4 * eclass.Length && Bytes(eclass[..], nblock) == b
    requires forall c: Byte :: ftab[c] == End(b, c)
    modifies fmap, ftab
    ensures Bucketed(b, fmap[..])
    ensures forall c: Byte :: ftab[c] == Below(b, c)
  {
    ghost var pos: seq<nat>, words := [], eclass[..];
    assert Placed(b, ftab[..], fmap[..], pos, 0);
    hide Placed;
    var i: nat := 0;
    while i < nblock
      invariant i <= nblock && eclass[..] == words
      invariant Placed(b, ftab[..], fmap[..], pos, i)
    {
      var j := GetByte(eclass, i);
      assert j == Bytes(words, nblock)[i];
      var k := PlaceOne(fmap, ftab, i, j, b, pos);
      pos := pos + [k];
      i := i + 1;
    }
    AllPlaced(b, ftab[..], fmap[..], pos);
  }
}

/** The two in-place inverses of the block sort. */
module Unsort {
  import opened Permutations
  import opened Rotations
  import opened RadixPass
  import opened InverseBwt
  import opened PackedLinks

  const MAX_ENTRIES := 900000

  lemma StableRankInjective(l: seq<Byte>, i: nat, k: nat)
    requires i < k < |l|
    ensures StableRank(l, i) != StableRank(l, k)
  {
    var c, d := l[i], l[k];
    PrefixCount(l, i, c);
    PrefixCount(l, k, d);
    Buckets(l, c, d);
    Buckets(l, d, c);
    if c == d {
      assert l[..k] == l[..i + 1] + l[i + 1..k];
    }
  }

  lemma StableRankBound(l: seq<Byte>, i: nat)
    requires i < |l|
    ensures StableRank(l, i) < |l|
  {
    PrefixCount(l, i, l[i]);
    Buckets(l, l[i], l[i]);
  }

  // ---- What following the links reads, for any column and any starting row ----

  /** The row whose stable rank is r: where the link of row r leads. */
  ghost function Link(l: seq<Byte>, r: nat): (i: nat)
    requires r < |l|
    ensures i < |l| && StableRank(l, i) == r
  {
    LinkExists(l, r);
    var i: nat :| i < |l| && StableRank(l, i) == r;
    i
  }

  lemma LinkExists(l: seq<Byte>, r: nat)
    requires r < |l|
    ensures exists i: nat :: i < |l| && StableRank(l, i) == r
  {
    var ranks := seq(|l|, k requires 0 <= k < |l| => StableRank(l, k));
    forall i, k | 0 <= i < k < |l| ensures ranks[i] != ranks[k] {
      StableRankInjective(l, i, k);
    }
    forall i | 0 <= i < |l| ensures ranks[i] < |l| {
      StableRankBound(l, i);
    }
    DistinctIsPermutation(ranks, |l|);
    var k := PermutationHits(ranks, |l|, r);
    assert StableRank(l, k) == r;
  }

  lemma LinkIs(l: seq<Byte>, i: nat)
    requires i < |l|
    ensures StableRank(l, i) < |l| && Link(l, StableRank(l, i)) == i
  {
    StableRankBound(l, i);
    var k := Link(l, StableRank(l, i));
    if k < i {
      StableRankInjective(l, k, i);
    } else if i < k {
      StableRankInjective(l, i, k);
    }
  }

  /** The row reached from orig by k links. */
  ghost function RowAt(l: seq<Byte>, orig: nat, k: nat): (r: nat)
    requires orig < |l|
    ensures r < |l|
  {
    if k == 0 then orig else Link(l, RowAt(l, orig, k - 1))
  }

  /** The k-th character read. */
  ghost function CharAt(l: seq<Byte>, orig: nat, k: nat): Byte
    requires orig < |l|
  {
    l[RowAt(l, orig, k + 1)]
  }

  /** As many characters as the column has. */
  ghost function Unsorted(l: seq<Byte>, orig: nat): (b: seq<Byte>)
    requires orig < |l|
    ensures |b| == |l| && forall k :: 0 <= k < |b| ==> b[k] == CharAt(l, orig, k)
  {
    seq(|l|, k requires 0 <= k < |l| => CharAt(l, orig, k))
  }

  /** The column of a block's sorted rotations reads as the block, from the row that is the block. */
  lemma UnsortInverts(b: seq<Byte>, ptr: seq<nat>, orig: nat)
    requires SortedRotations(b, ptr) && orig < |b| && ptr[orig] == 0
    ensures Unsorted(LastColumn(b, ptr), orig) == b
  {
    forall k | 0 <= k < |b| ensures CharAt(LastColumn(b, ptr), orig, k) == b[k] {
      RowShows(b, ptr, orig, k);
      ShowsNext(b, ptr, RowAt(LastColumn(b, ptr), orig, k), k, RowAt(LastColumn(b, ptr), orig, k + 1));
    }
  }

  lemma {:induction false} RowShows(b: seq<Byte>, ptr: seq<nat>, orig: nat, k: nat)
    requires SortedRotations(b, ptr) && orig < |b| && ptr[orig] == 0 && k < |b|
    ensures Shows(b, ptr, RowAt(LastColumn(b, ptr), orig, k), k)
  {
    if k > 0 {
      RowShows(b, ptr, orig, k - 1);
      ShowsNext(b, ptr, RowAt(LastColumn(b, ptr), orig, k - 1), k - 1, RowAt(LastColumn(b, ptr), orig, k));
    }
  }

  /** Running bucket positions after i characters: the next one goes to its stable rank. */
  ghost predicate Cursors(l: seq<Byte>, cftab: seq<nat>, i: nat) {
    i <= |l| && |cftab| == 257 && forall c: Byte :: cftab[c] == Below(l, c) + multiset(l[..i])[c]
  }

  lemma CursorsStep(l: seq<Byte>, cftab: seq<nat>, i: nat)
    requires Cursors(l, cftab, i) && i < |l|
    ensures cftab[l[i]] == StableRank(l, i) < |l|
    ensures Cursors(l, cftab[l[i] := cftab[l[i]] + 1], i + 1)
  {
    StableRankBound(l, i);
    forall c: Byte ensures multiset(l[..i + 1])[c] == multiset(l[..i])[c] + if l[i] == c then 1 else 0 {
      PrefixCount(l, i, c);
    }
  }

  /** cftab[c] is where bucket c starts in the sorted first column; cftab[256] is the end. */
  ghost predicate BucketStarts(l: seq<Byte>, cftab: seq<nat>) {
    |cftab| == 257 && forall c: nat :: c <= 256 ==> cftab[c] == Below(l, c)
  }

  method CumulativeCounts(unzftab: array<nat>, ghost l: seq<Byte>) returns (cftab: array<nat>)
    requires unzftab.Length == 256 && forall c: Byte :: unzftab[c] == multiset(l)[c]
    ensures fresh(cftab) && cftab.Length == 257
    ensures BucketStarts(l, cftab[..])
  {
    cftab := ShiftedCounts(unzftab);
    var i: nat := 1;
    while i <= 256
      invariant 1 <= i <= 257
      invariant forall c: nat :: c < i ==> cftab[c] == Below(l, c)
      invariant forall c: nat :: i <= c <= 256 ==> cftab[c] == unzftab[c - 1]
    {
      var ch: Byte := i - 1;
      assert Below(l, i) == Below(l, i - 1) + multiset(l)[ch];
      cftab[i] := cftab[i] + cftab[i - 1];
      i := i + 1;
    }
  }

  method ShiftedCounts(unzftab: array<nat>) returns (cftab: array<nat>)
    requires unzftab.Length == 256
    ensures fresh(cftab) && cftab.Length == 257
    ensures cftab[0] == 0 && forall c: nat :: 1 <= c <= 256 ==> cftab[c] == unzftab[c - 1]
  {
    cftab := new nat[257];
    cftab[0] := 0;
    var i := 1;
    while i <= 256
      invariant 1 <= i <= 257 && cftab[0] == 0
      invariant forall c: nat :: 1 <= c < i ==> cftab[c] == unzftab[c - 1]
    {
      cftab[i] := unzftab[i - 1];
      i := i + 1;
    }
  }

  // ---- The fast form: character and link share one word ----

  /** The first i links have been written above the characters of l. */
  ghost predicate LinkedTo(l: seq<Byte>, tt: seq<nat>, i: nat) {
    && i <= |l| <= |tt|
    && (forall j :: 0 <= j < |l| ==> tt[j] % 256 == l[j])
    && (forall k :: 0 <= k < i ==> StableRank(l, k) < |l| && tt[StableRank(l, k)] / 256 == k)
    && (forall j :: 0 <= j < |l| && tt[j] >= 256 ==> tt[j] / 256 < i && StableRank(l, tt[j] / 256) == j)
  }

  lemma LinkStep(l: seq<Byte>, tt: seq<nat>, i: nat)
    requires LinkedTo(l, tt, i) && i < |l|
    ensures var j := StableRank(l, i);
            j < |l| && tt[j] < 256 && LinkedTo(l, tt[j := tt[j] + i * 256], i + 1)
  {
    var j := StableRank(l, i);
    StableRankBound(l, i);
    forall k | 0 <= k < i ensures StableRank(l, k) != j {
      StableRankInjective(l, k, i);
    }
    hide StableRank;
    LinkedWord(tt[j], i);
    var tt' := tt[j := tt[j] + i * 256];
    assert forall m :: 0 <= m < |l| && m != j ==> tt'[m] == tt[m];
  }

  lemma LinkStart(l: seq<Byte>, tt: seq<nat>)
    requires |l| <= |tt| && tt[..|l|] == l
    ensures LinkedTo(l, tt, 0)
  {
    assert forall j :: 0 <= j < |l| ==> tt[j] == tt[..|l|][j];
  }

  lemma CursorsStart(l: seq<Byte>, cftab: seq<nat>)
    requires BucketStarts(l, cftab)
    ensures Cursors(l, cftab, 0)
  {
  }

  lemma LinkedWord(ch: nat, link: nat)
    requires ch < 256
    ensures (ch + link * 256) % 256 == ch && (ch + link * 256) / 256 == link
  {
  }

  lemma LinkAt(l: seq<Byte>, tt: seq<nat>, r: nat)
    requires LinkedTo(l, tt, |l|) && r < |l|
    ensures tt[r] % 256 == l[r] && tt[r] / 256 == Link(l, r)
  {
    var k := Link(l, r);
    assert tt[StableRank(l, k)] / 256 == k;
  }

  /** Links every row to the row one character further on, above the characters in tt. */
  method BuildLinks(tt: array<nat>, cftab: array<nat>, nblock: nat, ghost l: seq<Byte>)
    requires tt != cftab && cftab.Length == 257 && nblock == |l| <= tt.Length
    requires tt[..nblock] == l && BucketStarts(l, cftab[..])
    modifies tt, cftab
    ensures LinkedTo(l, tt[..], nblock)
  {
    hide LinkedTo, Cursors, BucketStarts;
    CursorsStart(l, cftab[..]);
    LinkStart(l, tt[..]);
    var i := 0;
    while i < nblock
      invariant i <= nblock && LinkedTo(l, tt[..], i) && Cursors(l, cftab[..], i)
    {
      LinkedChars(l, tt[..], i);
      LinkStep(l, tt[..], i);
      CursorsStep(l, cftab[..], i);
      var uc: Byte := tt[i] % 256;
      var j := cftab[uc];
      assert tt[j] < 256;  // so that adding the link is the same as or-ing it in
      tt[j] := tt[j] + i * 256;
      cftab[uc] := cftab[uc] + 1;
      i := i + 1;
    }
  }

  lemma LinkedChars(l: seq<Byte>, tt: seq<nat>, i: nat)
    requires LinkedTo(l, tt, i)
    ensures |l| <= |tt| && forall j :: 0 <= j < |l| ==> tt[j] % 256 == l[j]
  {
  }

  /** Takes the next character in the fast form. */
  method GetFast(tt: array<nat>, tPos: nat, limit: nat) returns (corrupt: bool, ch: Byte, tPos': nat)
    requires limit <= tt.Length
    ensures corrupt <==> tPos >= limit
    ensures !corrupt ==> ch == tt[tPos] % 256 && tPos' == tt[tPos] / 256
  {
    if tPos >= limit { return true, 0, 0; }
    var w := tt[tPos];
    return false, w % 256, w / 256;
  }

  /** The fast reader will next deliver the k-th character. */
  ghost predicate FastAt(l: seq<Byte>, orig: nat, tt: seq<nat>, tPos: nat, k: nat) {
    orig < |l| && LinkedTo(l, tt, |l|) && tPos == RowAt(l, orig, k + 1)
  }

  lemma FastStarts(l: seq<Byte>, orig: nat, tt: seq<nat>)
    requires orig < |l| && LinkedTo(l, tt, |l|)
    ensures FastAt(l, orig, tt, tt[orig] / 256, 0)
  {
    LinkAt(l, tt, orig);
    assert RowAt(l, orig, 1) == Link(l, RowAt(l, orig, 0));
  }

  lemma FastStep(l: seq<Byte>, orig: nat, tt: seq<nat>, tPos: nat, k: nat)
    requires FastAt(l, orig, tt, tPos, k)
    ensures orig < |l| && tPos < |l| <= |tt| && tt[tPos] % 256 == CharAt(l, orig, k) && FastAt(l, orig, tt, tt[tPos] / 256, k + 1)
  {
    LinkAt(l, tt, tPos);
    assert RowAt(l, orig, k + 2) == Link(l, RowAt(l, orig, k + 1));
  }

  // ---- The small form: packed links, reversed along one cycle ----

  /** Entry i of the first `upto` is the stable rank of character i; the others still are characters. */
  ghost predicate RankedTo(l: seq<Byte>, ll16: seq<nat>, ll4: seq<nat>, upto: nat) {
    && Packed(ll16, ll4, |l|) && upto <= |l|
    && (forall i :: 0 <= i < upto ==> Entries(ll16, ll4, |l|)[i] == StableRank(l, i))
    && (forall i :: upto <= i < |l| ==> ll16[i] == l[i])
  }

  lemma RankedStep(l: seq<Byte>, ll16: seq<nat>, ll4: seq<nat>, i: nat)
    requires RankedTo(l, ll16, ll4, i) && i < |l|
    ensures |l| <= |ll16| && ll16[i] == l[i]
  {
  }

  method SetRank(ll16: array<nat>, ll4: array<nat>, i: nat, rank: nat, ghost l: seq<Byte>)
    requires ll16 != ll4 && i < |l| <= MAX_ENTRIES && rank == StableRank(l, i) < |l|
    requires RankedTo(l, ll16[..], ll4[..], i)
    modifies ll16, ll4
    ensures RankedTo(l, ll16[..], ll4[..], i + 1)
  {
    hide StableRank, Packed;
    SetEntry(ll16, ll4, i, rank, |l|);
  }

  method RankOne(ll16: array<nat>, ll4: array<nat>, cftabCopy: array<nat>, i: nat, ghost l: seq<Byte>)
    requires ll16 != ll4 && ll16 != cftabCopy && ll4 != cftabCopy && i < |l| <= MAX_ENTRIES
    requires RankedTo(l, ll16[..], ll4[..], i) && Cursors(l, cftabCopy[..], i)
    modifies ll16, ll4, cftabCopy
    ensures RankedTo(l, ll16[..], ll4[..], i + 1) && Cursors(l, cftabCopy[..], i + 1)
  {
    CursorsStep(l, cftabCopy[..], i);
    RankedStep(l, ll16[..], ll4[..], i);
    hide RankedTo, StableRank;
    var uc: Byte := ll16[i] % 256;
    SetRank(ll16, ll4, i, cftabCopy[uc], l);
    cftabCopy[uc] := cftabCopy[uc] + 1;
  }

  /** Replaces every character by its stable rank. */
  method BuildRanks(ll16: array<nat>, ll4: array<nat>, cftabCopy: array<nat>, nblock: nat, ghost l: seq<Byte>)
    requires ll16 != ll4 && ll16 != cftabCopy && ll4 != cftabCopy && cftabCopy.Length == 257
    requires nblock == |l| <= MAX_ENTRIES && RankedTo(l, ll16[..], ll4[..], 0)
    requires BucketStarts(l, cftabCopy[..])
    modifies ll16, ll4, cftabCopy
    ensures RankedTo(l, ll16[..], ll4[..], nblock)
  {
    hide BucketStarts, Cursors, RankedTo;
    CursorsStart(l, cftabCopy[..]);
    var i := 0;
    while i < nblock
      invariant i <= nblock && Cursors(l, cftabCopy[..], i)
      invariant RankedTo(l, ll16[..], ll4[..], i)
    {
      RankOne(ll16, ll4, cftabCopy, i, l);
      i := i + 1;
    }
  }

  /** Rows met by following the stable ranks from origPtr: all different, all reversed but the first. */
  ghost predicate Trail(l: seq<Byte>, e: seq<nat>, path: seq<nat>) {
    && |path| > 0 && |e| == |l|
    && (forall k :: 0 <= k < |path| ==> path[k] < |l|)
    && (forall i, k :: 0 <= i < k < |path| ==> path[i] != path[k])
    && (forall k :: 0 < k < |path| ==> path[k] == StableRank(l, path[k - 1]) && e[path[k]] == path[k - 1])
    && (forall i :: 0 <= i < |l| && (forall k :: 0 < k < |path| ==> path[k] != i) ==> e[i] == StableRank(l, i))
  }

  /** A closed trail: the entries on it are the inverse of the stable rank. */
  ghost predicate Reversed(l: seq<Byte>, e: seq<nat>, cycle: set<nat>) {
    && |e| == |l|
    && forall r :: r in cycle ==> r < |l| && e[r] < |l| && e[r] in cycle && StableRank(l, e[r]) == r
  }

  lemma TrailLength(l: seq<Byte>, e: seq<nat>, path: seq<nat>)
    requires Trail(l, e, path)
    ensures |path| <= |l|
  {
    DistinctCount(path);
    DistinctCount(Iota(|l|));
    forall x | x in path ensures x in Iota(|l|) {
      assert Iota(|l|)[x] == x;
    }
    assert Elements(path) <= Elements(Iota(|l|));
    SubsetSize(Elements(path), Elements(Iota(|l|)));
  }

  lemma SubsetSize(c: set<nat>, d: set<nat>)
    requires c <= d
    ensures |c| <= |d|
  {
    assert |d| == |c| + |d - c| by {
      assert d == c + (d - c);
    }
  }

  /** The next row of a trail is its first row or one not yet met. */
  lemma TrailNext(l: seq<Byte>, e: seq<nat>, path: seq<nat>)
    requires Trail(l, e, path)
    ensures var j := StableRank(l, path[|path| - 1]);
            j < |l| && (j != path[0] ==> forall k :: 0 <= k < |path| ==> path[k] != j)
  {
    var last := path[|path| - 1];
    StableRankBound(l, last);
    var j := StableRank(l, last);
    forall k | 0 < k < |path| ensures path[k] != j {
      if path[k] == j && path[k - 1] != last {
        if path[k - 1] < last {
          StableRankInjective(l, path[k - 1], last);
        } else {
          StableRankInjective(l, last, path[k - 1]);
        }
      }
    }
  }

  lemma TrailGrows(l: seq<Byte>, e: seq<nat>, path: seq<nat>, j: nat)
    requires Trail(l, e, path) && j == StableRank(l, path[|path| - 1]) && j != path[0]
    ensures j < |l| && e[j] == StableRank(l, j)
    ensures Trail(l, e[j := path[|path| - 1]], path + [j])
  {
    TrailNext(l, e, path);
    hide StableRank;
    var m := |path|;
    var e', path' := e[j := path[m - 1]], path + [j];
    forall k | 0 < k < |path'| ensures path'[k] == StableRank(l, path'[k - 1]) && e'[path'[k]] == path'[k - 1] {
      if k < m {
        assert path'[k] == path[k] && path'[k - 1] == path[k - 1] && path[k] != j;
      }
    }
    forall i | 0 <= i < |l| && (forall k :: 0 < k < |path'| ==> path'[k] != i) ensures e'[i] == StableRank(l, i) {
      assert path'[m] != i;
      forall k | 0 < k < m ensures path[k] != i {
        assert path'[k] == path[k];
      }
    }
  }

  lemma TrailCloses(l: seq<Byte>, e: seq<nat>, path: seq<nat>)
    requires Trail(l, e, path) && StableRank(l, path[|path| - 1]) == path[0]
    ensures Reversed(l, e[path[0] := path[|path| - 1]], Elements(path))
  {
    hide StableRank;
    var e' := e[path[0] := path[|path| - 1]];
    forall r | r in Elements(path) ensures r < |l| && e'[r] < |l| && e'[r] in Elements(path) && StableRank(l, e'[r]) == r {
      var k :| 0 <= k < |path| && path[k] == r;
      if k == 0 {
        assert e'[r] == path[|path| - 1];
      } else {
        assert e'[r] == path[k - 1];
      }
    }
  }

  /** Turns the ranks on the cycle through origPtr around, leaving the other cycles alone. */
  method ReversePointers(ll16: array<nat>, ll4: array<nat>, origPtr: nat, nblock: nat, ghost l: seq<Byte>)
    returns (ghost cycle: set<nat>)
    requires ll16 != ll4 && nblock == |l| <= MAX_ENTRIES && origPtr < nblock
    requires RankedTo(l, ll16[..], ll4[..], nblock)
    modifies ll16, ll4
    ensures Packed(ll16[..], ll4[..], nblock)
    ensures origPtr in cycle && Reversed(l, Entries(ll16[..], ll4[..], nblock), cycle)
  {
    var i := origPtr;
    var j := GetEntry(ll16, ll4, i, nblock);
    ghost var path := [origPtr];
    while j != origPtr
      invariant Packed(ll16[..], ll4[..], nblock)
      invariant Trail(l, Entries(ll16[..], ll4[..], nblock), path)
      invariant path[0] == origPtr && path[|path| - 1] == i && j == StableRank(l, i)
      decreases |l| - |path|
    {
      TrailGrows(l, Entries(ll16[..], ll4[..], nblock), path, j);
      var tmp := GetEntry(ll16, ll4, j, nblock);
      SetEntry(ll16, ll4, j, i, nblock);
      path := path + [j];
      TrailLength(l, Entries(ll16[..], ll4[..], nblock), path);
      i := j;
      j := tmp;
    }
    TrailCloses(l, Entries(ll16[..], ll4[..], nblock), path);
    SetEntry(ll16, ll4, j, i, nblock);
    cycle := Elements(path);
  }

  /** The character whose bucket holds row indx, by bisection over the bucket starts. */
  method IndexIntoF(indx: nat, cftab: array<nat>, ghost l: seq<Byte>) returns (nb: Byte)
    requires cftab.Length == 257 && indx < |l|
    requires BucketStarts(l, cftab[..])
    ensures Below(l, nb) <= indx < End(l, nb)
  {
    var lo, hi := 0, 256;
    BelowAll(l, 256);
    while hi - lo != 1
      invariant 0 <= lo < hi <= 256
      invariant cftab[lo] <= indx < cftab[hi]
      decreases hi - lo
    {
      var mid := (lo + hi) / 2;
      if indx >= cftab[mid] {
        lo := mid;
      } else {
        hi := mid;
      }
    }
    nb := lo;
    assert hi == lo + 1;
  }

  /** Takes the next character in the small form. */
  method GetSmall(ll16: array<nat>, ll4: array<nat>, cftab: array<nat>, tPos: nat, limit: nat, nblock: nat,
                  ghost l: seq<Byte>)
    returns (corrupt: bool, ch: Byte, tPos': nat)
    requires Packed(ll16[..], ll4[..], nblock) && cftab.Length == 257 && nblock == |l| <= limit
    requires tPos < limit ==> tPos < nblock
    requires BucketStarts(l, cftab[..])
    ensures corrupt <==> tPos >= limit
    ensures !corrupt ==> Below(l, ch) <= tPos < End(l, ch) && tPos' == Entries(ll16[..], ll4[..], nblock)[tPos]
  {
    if tPos >= limit { return true, 0, 0; }
    corrupt := false;
    ch := IndexIntoF(tPos, cftab, l);
    tPos' := GetEntry(ll16, ll4, tPos, nblock);
  }

  /** The small reader will next deliver the k-th character. */
  ghost predicate SmallAt(l: seq<Byte>, orig: nat, e: seq<nat>, cycle: set<nat>, tPos: nat, k: nat) {
    orig < |l| && Reversed(l, e, cycle) && tPos in cycle && tPos == RowAt(l, orig, k)
  }

  lemma SmallStep(l: seq<Byte>, orig: nat, e: seq<nat>, cycle: set<nat>, tPos: nat, k: nat, ch: Byte)
    requires SmallAt(l, orig, e, cycle, tPos, k) && Below(l, ch) <= tPos < End(l, ch)
    ensures orig < |l| && ch == CharAt(l, orig, k) && SmallAt(l, orig, e, cycle, e[tPos], k + 1)
  {
    var i := e[tPos];
    LinkIs(l, i);
    assert RowAt(l, orig, k + 1) == Link(l, RowAt(l, orig, k));
    PrefixCount(l, i, l[i]);
    Buckets(l, l[i], l[i]);
    Buckets(l, ch, l[i]);
    Buckets(l, l[i], ch);
  }

  lemma SmallInside(l: seq<Byte>, orig: nat, e: seq<nat>, cycle: set<nat>, tPos: nat, k: nat)
    requires SmallAt(l, orig, e, cycle, tPos, k)
    ensures orig < |l| && tPos < |l|
  {
  }

  method NextSmall(ll16: array<nat>, ll4: array<nat>, cftab: array<nat>, tPos: nat, nblock: nat, limit: nat,
                   ghost k: nat, ghost l: seq<Byte>, ghost orig: nat, ghost cycle: set<nat>)
    returns (corrupt: bool, ch: Byte, tPos': nat)
    requires nblock == |l| <= limit && Packed(ll16[..], ll4[..], nblock) && cftab.Length == 257
    requires SmallAt(l, orig, Entries(ll16[..], ll4[..], nblock), cycle, tPos, k)
    requires BucketStarts(l, cftab[..])
    ensures !corrupt && orig < |l| && ch == CharAt(l, orig, k)
    ensures SmallAt(l, orig, Entries(ll16[..], ll4[..], nblock), cycle, tPos', k + 1)
  {
    hide SmallAt, Packed, Below, End, Entries, BucketStarts, CharAt;
    ghost var e := Entries(ll16[..], ll4[..], nblock);
    SmallInside(l, orig, e, cycle, tPos, k);
    corrupt, ch, tPos' := GetSmall(ll16, ll4, cftab, tPos, limit, nblock, l);
    SmallStep(l, orig, e, cycle, tPos, k, ch);
  }

  /** Builds and reverses the links; reading may then start at origPtr. */
  method PrepareSmall(ll16: array<nat>, ll4: array<nat>, cftab: array<nat>, origPtr: nat, nblock: nat, ghost l: seq<Byte>)
    returns (ghost cycle: set<nat>)
    requires ll16 != ll4 && ll16 != cftab && ll4 != cftab
    requires nblock == |l| <= MAX_ENTRIES && cftab.Length == 257 && origPtr < nblock
    requires RankedTo(l, ll16[..], ll4[..], 0) && BucketStarts(l, cftab[..])
    modifies ll16, ll4
    ensures Packed(ll16[..], ll4[..], nblock)
    ensures SmallAt(l, origPtr, Entries(ll16[..], ll4[..], nblock), cycle, origPtr, 0)
  {
    hide RankedTo, Packed, Entries, Below, Reversed, BucketStarts;
    var cftabCopy := CopyTable(cftab);
    BuildRanks(ll16, ll4, cftabCopy, nblock, l);
    cycle := ReversePointers(ll16, ll4, origPtr, nblock, l);
  }

  method CopyTable(cftab: array<nat>) returns (cftabCopy: array<nat>)
    requires cftab.Length == 257
    ensures fresh(cftabCopy) && cftabCopy[..] == cftab[..]
  {
    cftabCopy := new nat[257];
    var i := 0;
    while i <= 256
      invariant i <= 257 && cftabCopy[..i] == cftab[..i]
    {
      cftabCopy[i] := cftab[i];
      i := i + 1;
    }
  }

  // ---- Reading a whole block ----

  /** From any column, in the fast form: what its links read; a block's column gives the block. */
  method ReadFast(tt: array<nat>, unzftab: array<nat>, origPtr: nat, nblock: nat, limit: nat, ghost l: seq<Byte>)
    returns (corrupt: bool, out: seq<Byte>)
    requires tt != unzftab && unzftab.Length == 256 && nblock == |l| <= limit <= tt.Length
    requires origPtr < nblock && tt[..nblock] == l && forall c: Byte :: unzftab[c] == multiset(l)[c]
    modifies tt
    ensures !corrupt && out == Unsorted(l, origPtr)
  {
    hide FastAt, BucketStarts, CharAt, LinkedTo;
    var cftab := CumulativeCounts(unzftab, l);
    BuildLinks(tt, cftab, nblock, l);
    FastStarts(l, origPtr, tt[..]);
    var tPos, used := tt[origPtr] / 256, 0;
    out, corrupt := [], false;
    while used < nblock
      invariant !corrupt && used <= nblock == |l| && out == Unsorted(l, origPtr)[..used] && FastAt(l, origPtr, tt[..], tPos, used)
    {
      FastStep(l, origPtr, tt[..], tPos, used);
      var ch;
      corrupt, ch, tPos := GetFast(tt, tPos, limit);
      out := out + [ch];
      used := used + 1;
    }
  }

  /** The same in the small form. */
  method ReadSmall(ll16: array<nat>, ll4: array<nat>, unzftab: array<nat>, origPtr: nat, nblock: nat, limit: nat, ghost l: seq<Byte>)
    returns (corrupt: bool, out: seq<Byte>)
    requires ll16 != ll4 && ll16 != unzftab && ll4 != unzftab && unzftab.Length == 256
    requires nblock == |l| <= limit && nblock <= MAX_ENTRIES && origPtr < nblock
    requires RankedTo(l, ll16[..], ll4[..], 0) && forall c: Byte :: unzftab[c] == multiset(l)[c]
    modifies ll16, ll4
    ensures !corrupt && out == Unsorted(l, origPtr)
  {
    hide RankedTo, Packed, Entries, Below, SmallAt, Reversed, BucketStarts, CharAt;
    var cftab := CumulativeCounts(unzftab, l);
    ghost var cycle := PrepareSmall(ll16, ll4, cftab, origPtr, nblock, l);
    var tPos, used := origPtr, 0;
    out, corrupt := [], false;
    while used < nblock
      invariant !corrupt && used <= nblock == |l| && out == Unsorted(l, origPtr)[..used]
      invariant Packed(ll16[..], ll4[..], nblock) && BucketStarts(l, cftab[..])
      invariant SmallAt(l, origPtr, Entries(ll16[..], ll4[..], nblock), cycle, tPos, used)
    {
      var ch;
      corrupt, ch, tPos := NextSmall(ll16, ll4, cftab, tPos, nblock, limit, used, l, origPtr, cycle);
      out := out + [ch];
      used := used + 1;
    }
  }
}

/** Sorting a block: the main sort within a budget of work, the fallback sort for short or repetitive blocks. */
module BlockSorting {
  import opened Permutations
  import opened ByteView
  import opened Rotations
  import opened SegmentSortStack
  import opened FallbackSort
  import opened InverseBwt
  import opened MainCompare
  import opened MainSimple
  import opened MainBuckets
  import opened MainWalk
  import MainSort

  /** Shorter blocks are sorted by the fallback sort. */
  const SHORT := 10000

  // ---- Whichever sort it was ----

  lemma KeysAscend(b: seq<Byte>, s: seq<nat>)
    requires SortedRotations(b, s)
    ensures forall i :: 0 <= i < |s| ==> s[i] < |Keys(b)|
    ensures Ascending(Gather(Keys(b), s)) && multiset(Gather(Keys(b), s)) == multiset(Keys(b))
  {
    hide Key;
    GatherIota(Keys(b), s);
  }

  /** All sorted lists of the rotations have equal rotations in each row. */
  lemma RowsAlike(b: seq<Byte>, s: seq<nat>, t: seq<nat>)
    requires SortedRotations(b, s) && SortedRotations(b, t)
    ensures forall i :: 0 <= i < |b| ==> Key(b, s[i], |b|) == Key(b, t[i], |b|)
  {
    hide Key, Ascending;
    KeysAscend(b, s);
    KeysAscend(b, t);
    AscendingUnique(Gather(Keys(b), s), Gather(Keys(b), t));
    forall i | 0 <= i < |b| ensures Key(b, s[i], |b|) == Key(b, t[i], |b|) {
      assert Gather(Keys(b), s)[i] == Gather(Keys(b), t)[i];
    }
  }

  /** A rotation's last character can be told from its key. */
  lemma LastFromKey(b: seq<Byte>, p: nat)
    requires p < |b|
    ensures b[Prev(|b|, p)] == Key(b, p, |b|) % 256
  {
    KeyShift(b, Prev(|b|, p));
  }

  /** Both sorts give the same last column, for every block. */
  lemma SameColumn(b: seq<Byte>, s: seq<nat>, t: seq<nat>)
    requires SortedRotations(b, s) && SortedRotations(b, t)
    ensures LastColumn(b, s) == LastColumn(b, t)
  {
    hide Key;
    RowsAlike(b, s, t);
    forall i | 0 <= i < |b| ensures b[Prev(|b|, s[i])] == b[Prev(|b|, t[i])] {
      LastFromKey(b, s[i]);
      LastFromKey(b, t[i]);
    }
  }

  /** No two rotations are alike. */
  ghost predicate AllDiffer(b: seq<Byte>) {
    forall p, q :: 0 <= p < q < |b| ==> Keys(b)[p] != Keys(b)[q]
  }

  lemma DifferAt(b: seq<Byte>, p: nat, q: nat)
    requires AllDiffer(b) && p < |b| && q < |b| && Keys(b)[p] == Keys(b)[q]
    ensures p == q
  {
    hide Key;
  }

  /** Both sorts give the same rows exactly if no two rotations are alike. */
  lemma SameRows(b: seq<Byte>, s: seq<nat>)
    requires SortedRotations(b, s)
    ensures AllDiffer(b) <==> forall t :: SortedRotations(b, t) ==> t == s
  {
    hide Key;
    if AllDiffer(b) {
      forall t | SortedRotations(b, t) ensures t == s {
        RowsAlike(b, s, t);
        forall i | 0 <= i < |b| ensures s[i] == t[i] {
          DifferAt(b, s[i], t[i]);
        }
      }
    } else {
      var p, q :| 0 <= p < q < |b| && Keys(b)[p] == Keys(b)[q];
      var t := Exchanged(b, s, p, q);
    }
  }

  /** Exchanging two rotations that are alike keeps the rows sorted. */
  lemma Exchanged(b: seq<Byte>, s: seq<nat>, p: nat, q: nat) returns (t: seq<nat>)
    requires SortedRotations(b, s) && p < q < |b| && Keys(b)[p] == Keys(b)[q]
    ensures SortedRotations(b, t) && t != s
  {
    hide Key;
    var i := PermutationHits(s, |b|, p);
    var j := PermutationHits(s, |b|, q);
    t := s[i := q][j := p];
    SegmentSort.SwapPermutes(s, i, j);
    forall k, l | 0 <= k < l < |t| ensures Key(b, t[k], |b|) <= Key(b, t[l], |b|) {
      assert Key(b, t[k], |b|) == Key(b, s[k], |b|) && Key(b, t[l], |b|) == Key(b, s[l], |b|);
    }
  }

  // ---- Sorting ----

  /** The block as the main sort reads it, with room to repeat its start. */
  method CopyBlock(eclass: array<nat>, nblock: nat, ghost b: seq<Byte>) returns (block: array<nat>)
    requires nblock == |b| > OVERSHOOT && nblock <= 4 * eclass.Length && Bytes(eclass[..], nblock) == b
    ensures fresh(block) && Holds(b, block[..])
  {
    block := new nat[nblock + OVERSHOOT](_ => 0);
    var i := 0;
    while i < nblock
      invariant i <= nblock && forall k :: 0 <= k < i ==> block[k] == b[k]
    {
      var c := GetByte(eclass, i);
      assert c == Bytes(eclass[..], nblock)[i];
      block[i] := c;
      i := i + 1;
    }
  }

  /** What the main sort may spend on a block. */
  function Budget(nblock: nat, workFactor: int): (k: nat)
    ensures k <= 33 * nblock && (workFactor <= 3 ==> k == 0) && (workFactor >= 100 ==> k == 33 * nblock)
  {
    var wfact := if workFactor < 1 then 1 else if workFactor > 100 then 100 else workFactor;
    nblock * ((wfact - 1) / 3)
  }

  /** The main sort, and the fallback sort if the budget has run out. */
  method SortLong(fmap: array<nat>, eclass: array<nat>, nblock: nat, workFactor: int, ghost b: seq<Byte>)
    requires fmap != eclass && fmap.Length == nblock && SHORT <= nblock == |b| <= MAX_BLOCK && nblock <= eclass.Length
    requires Bytes(eclass[..], nblock) == b
    modifies fmap, eclass
    ensures SortedRotations(b, fmap[..]) && Bytes(eclass[..], nblock) == b
  {
    hide Holds, SortedRotations, Bytes;
    var block := CopyBlock(eclass, nblock, b);
    var quadrant, ftab := new nat[nblock + OVERSHOOT](_ => 0), new nat[PAIRS + 1](_ => 0);
    var budget := MainSort.MainSort(fmap, block, quadrant, ftab, nblock, Budget(nblock, workFactor), b);
    if budget < 0 {
      SortShort(fmap, eclass, nblock, b);
    }
  }

  method SortShort(fmap: array<nat>, eclass: array<nat>, nblock: nat, ghost b: seq<Byte>)
    requires fmap != eclass && fmap.Length == nblock && 0 < nblock == |b| <= MAX_BLOCK && nblock <= eclass.Length
    requires Bytes(eclass[..], nblock) == b
    modifies fmap, eclass
    ensures SortedRotations(b, fmap[..]) && Bytes(eclass[..], nblock) == b
  {
    hide SortedRotations, Bytes;
    var bhtab := new nat[nblock / 32 + 3](_ => 0);
    FallbackSort.FallbackSort(fmap, eclass, bhtab, nblock);
  }

  /** Sorts the block and finds the row of the block itself. */
  method BlockSort(eclass: array<nat>, nblock: nat, workFactor: int, ghost b: seq<Byte>) returns (fmap: array<nat>, origPtr: nat)
    requires 0 < nblock == |b| <= MAX_BLOCK && nblock <= eclass.Length && Bytes(eclass[..], nblock) == b
    modifies eclass
    ensures fresh(fmap) && fmap.Length == nblock && SortedRotations(b, fmap[..])
    ensures origPtr < nblock && fmap[origPtr] == 0 && Bytes(eclass[..], nblock) == b
  {
    hide SortedRotations, Bytes;
    fmap := new nat[nblock](_ => 0);
    if nblock < SHORT {
      SortShort(fmap, eclass, nblock, b);
    } else {
      SortLong(fmap, eclass, nblock, workFactor, b);
    }
    var found := FindOrigPtr(fmap, nblock, b);
    origPtr := found;
  }
}

/** Sequences seen as rearrangements of one another. */
module Permutations {

  type Byte = x: int | 0 <= x < 256

  /** The sequence 0, 1, ..., n-1. */
  function Iota(n: nat): (s: seq<nat>)
    ensures |s| == n && forall i :: 0 <= i < n ==> s[i] == i
  {
    seq(n, i requires 0 <= i < n => i)
  }

  ghost predicate IsPermutation(s: seq<nat>, n: nat) {
    multiset(s) == multiset(Iota(n))
  }

  lemma MemberAtIndex<T>(s: seq<T>, x: T) returns (i: nat)
    requires x in multiset(s)
    ensures i < |s| && s[i] == x
  {
    i :| 0 <= i < |s| && s[i] == x;
  }

  lemma SameLength<T>(s: seq<T>, t: seq<T>)
    requires multiset(s) == multiset(t)
    ensures |s| == |t|
  {
    assert |multiset(s)| == |s| && |multiset(t)| == |t|;
  }

  lemma DropOne<T>(s: seq<T>, i: nat)
    requires i < |s|
    ensures multiset(s[..i] + s[i + 1..]) == multiset(s) - multiset{s[i]}
  {
    assert s == s[..i] + [s[i]] + s[i + 1..];
  }

  lemma {:induction false} MultiplicityOne(s: seq<nat>, a: nat, b: nat)
    requires a < b < |s| && s[a] == s[b]
    ensures multiset(s)[s[a]] >= 2
  {
    DropOne(s, a);
    var t := s[..a] + s[a + 1..];
    assert t[b - 1] == s[b];
    assert s[b] in multiset(t);
  }

  lemma {:induction false} IotaMultiplicity(n: nat, x: nat)
    ensures multiset(Iota(n))[x] == if x < n then 1 else 0
  {
    if n != 0 {
      assert Iota(n) == Iota(n - 1) + [n - 1];
      IotaMultiplicity(n - 1, x);
    } else {
      assert Iota(n) == [];
    }
  }

  /** A permutation has the right length, stays in range and repeats nothing. */
  lemma PermutationFacts(s: seq<nat>, n: nat)
    requires IsPermutation(s, n)
    ensures |s| == n
    ensures forall i :: 0 <= i < n ==> s[i] < n
    ensures forall i, j :: 0 <= i < j < n ==> s[i] != s[j]
  {
    SameLength(s, Iota(n));
    forall i | 0 <= i < n ensures s[i] < n {
      assert s[i] in multiset(s);
      IotaMultiplicity(n, s[i]);
    }
    forall i, j | 0 <= i < j < n ensures s[i] != s[j] {
      if s[i] == s[j] {
        MultiplicityOne(s, i, j);
        IotaMultiplicity(n, s[i]);
      }
    }
  }

  lemma PermutationHits(s: seq<nat>, n: nat, x: nat) returns (i: nat)
    requires IsPermutation(s, n) && x < n
    ensures i < |s| && s[i] == x
  {
    IotaMultiplicity(n, x);
    i := MemberAtIndex(s, x);
  }

  /** Looking up every element of s in b. */
  function Gather<T>(b: seq<T>, s: seq<nat>): (r: seq<T>)
    requires forall i :: 0 <= i < |s| ==> s[i] < |b|
    ensures |r| == |s| && forall i :: 0 <= i < |s| ==> r[i] == b[s[i]]
  {
    seq(|s|, i requires 0 <= i < |s| => b[s[i]])
  }

  lemma GatherDropOne<T>(b: seq<T>, t: seq<nat>, i: nat)
    requires i < |t| && forall k :: 0 <= k < |t| ==> t[k] < |b|
    ensures multiset(Gather(b, t)) == multiset(Gather(b, t[..i] + t[i + 1..])) + multiset{b[t[i]]}
  {
    var g := Gather(b, t);
    DropOne(g, i);
    assert g[..i] + g[i + 1..] == Gather(b, t[..i] + t[i + 1..]);
    assert g[i] in multiset(g);
  }

  lemma {:induction false} GatherPermuted<T>(b: seq<T>, s: seq<nat>, t: seq<nat>)
    requires multiset(s) == multiset(t)
    requires forall i :: 0 <= i < |s| ==> s[i] < |b|
    requires forall i :: 0 <= i < |t| ==> t[i] < |b|
    ensures multiset(Gather(b, s)) == multiset(Gather(b, t))
  {
    SameLength(s, t);
    if s != [] {
      assert s[0] in multiset(s);
      var i := MemberAtIndex(t, s[0]);
      DropOne(s, 0);
      DropOne(t, i);
      var s', t' := s[..0] + s[1..], t[..i] + t[i + 1..];
      assert multiset(s') == multiset(t') && |s'| < |s|;
      GatherPermuted(b, s', t');
      GatherDropOne(b, s, 0);
      GatherDropOne(b, t, i);
    }
  }

  lemma GatherIota<T>(b: seq<T>, s: seq<nat>)
    requires IsPermutation(s, |b|)
    ensures |s| == |b| && forall i :: 0 <= i < |s| ==> s[i] < |b|
    ensures multiset(Gather(b, s)) == multiset(b)
  {
    PermutationFacts(s, |b|);
    GatherPermuted(b, s, Iota(|b|));
    assert Gather(b, Iota(|b|)) == b;
  }

  ghost predicate Ascending(s: seq<int>) {
    forall i, j :: 0 <= i <= j < |s| ==> s[i] <= s[j]
  }

  lemma AscendingHeads(s: seq<int>, t: seq<int>)
    requires Ascending(s) && Ascending(t) && multiset(s) == multiset(t) && s != [] && t != []
    ensures s[0] == t[0]
  {
    assert s[0] in multiset(s) && t[0] in multiset(t);
    var i := MemberAtIndex(t, s[0]);
    var j := MemberAtIndex(s, t[0]);
  }

  lemma AscendingTail(s: seq<int>)
    requires Ascending(s) && s != []
    ensures Ascending(s[1..]) && multiset(s) == multiset{s[0]} + multiset(s[1..]) && s == [s[0]] + s[1..]
  {
    assert s == [s[0]] + s[1..];
  }

  /** Two ascending arrangements of the same numbers are the same arrangement. */
  lemma {:induction false} AscendingUnique(s: seq<int>, t: seq<int>)
    requires Ascending(s) && Ascending(t) && multiset(s) == multiset(t)
    ensures s == t
  {
    SameLength(s, t);
    if s != [] {
      AscendingHeads(s, t);
      AscendingTail(s);
      AscendingTail(t);
      hide Ascending;
      var s', t' := s[1..], t[1..];
      assert multiset(s') == multiset(s) - multiset{s[0]} == multiset(t');
      AscendingUnique(s', t');
    }
  }

  function Elements<T>(s: seq<T>): set<T> {
    set x | x in s
  }

  lemma {:induction false} DistinctCount(s: seq<nat>)
    requires forall i, j :: 0 <= i < j < |s| ==> s[i] != s[j]
    ensures |Elements(s)| == |s|
    ensures forall x :: x in s ==> multiset(s)[x] == 1
  {
    if s == [] {
      assert Elements(s) == {};
    } else {
      var t, last := s[..|s| - 1], s[|s| - 1];
      DistinctCount(t);
      assert s == t + [last];
      assert last !in Elements(t);
      assert Elements(s) == Elements(t) + {last};
    }
  }

  lemma SubsetOfSameSize(c: set<nat>, d: set<nat>)
    requires c <= d && |c| == |d|
    ensures c == d
  {
    assert |d - c| == |d| - |c|;
  }

  /** Distinct entries below n, n of them, are all the entries below n. */
  lemma DistinctIsPermutation(s: seq<nat>, n: nat)
    requires |s| == n && forall i :: 0 <= i < n ==> s[i] < n
    requires forall i, j :: 0 <= i < j < n ==> s[i] != s[j]
    ensures IsPermutation(s, n)
  {
    DistinctCount(s);
    DistinctCount(Iota(n));
    forall x | x in s ensures x in Iota(n) {
      assert Iota(n)[x] == x;
    }
    SubsetOfSameSize(Elements(s), Elements(Iota(n)));
    forall x ensures multiset(s)[x] == multiset(Iota(n))[x] {
      IotaMultiplicity(n, x);
      assert x in Elements(s) <==> x in Elements(Iota(n));
      assert x in Iota(n) <==> x in Elements(Iota(n));
      assert x in s <==> x in Elements(s);
    }
  }

  /** A map with a right inverse on [0, n) rearranges [0, n), and the inverse is two-sided. */
  lemma InverseIsPermutation(s: seq<nat>, pos: seq<nat>, n: nat)
    requires |s| == n && |pos| == n
    requires forall p :: 0 <= p < n ==> pos[p] < n && s[pos[p]] == p
    ensures IsPermutation(s, n) && IsPermutation(pos, n)
    ensures forall k :: 0 <= k < n ==> s[k] < n && pos[s[k]] == k
  {
    DistinctIsPermutation(pos, n);
    forall k | 0 <= k < n ensures s[k] < n && pos[s[k]] == k {
      var p := PermutationHits(pos, n, k);
    }
    DistinctIsPermutation(s, n);
  }
}

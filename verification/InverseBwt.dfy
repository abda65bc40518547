/** Why undoing the block sort works, also for blocks with repeated rotations. */
module InverseBwt {
  import opened Permutations
  import opened Rotations
  import opened RadixPass

  /** The characters preceding the sorted rotations: what the encoder sends. */
  ghost function LastColumn(b: seq<Byte>, ptr: seq<nat>): (l: seq<Byte>)
    requires |ptr| == |b| && forall i :: 0 <= i < |ptr| ==> ptr[i] < |b|
    ensures |l| == |b| && forall i :: 0 <= i < |b| ==> l[i] == b[Prev(|b|, ptr[i])]
  {
    seq(|b|, i requires 0 <= i < |b| => b[Prev(|b|, ptr[i])])
  }

  /** The place of l[i] in a stable sort of l. */
  function StableRank(l: seq<Byte>, i: nat): nat
    requires i < |l|
  {
    Below(l, l[i]) + multiset(l[..i])[l[i]]
  }

  type Tagged = (Byte, nat)

  function Select(p: seq<Tagged>, c: Byte): seq<nat> {
    if p == [] then []
    else Select(p[..|p| - 1], c) + if p[|p| - 1].0 == c then [p[|p| - 1].1] else []
  }

  lemma {:induction false} SelectMultiset(p: seq<Tagged>, c: Byte, k: nat)
    ensures multiset(Select(p, c))[k] == multiset(p)[(c, k)]
  {
    if p != [] {
      var t, last := p[..|p| - 1], p[|p| - 1];
      SelectMultiset(t, c, k);
      assert p == t + [last];
    }
  }

  function Tags(p: seq<Tagged>): (l: seq<Byte>)
    ensures |l| == |p| && forall i :: 0 <= i < |p| ==> l[i] == p[i].0
  {
    seq(|p|, i requires 0 <= i < |p| => p[i].0)
  }

  /** The entry at i is the one selected after as many as its tag occurs before. */
  lemma {:induction false} SelectedAt(p: seq<Tagged>, i: nat)
    requires i < |p|
    ensures var c := p[i].0; var k := multiset(Tags(p)[..i])[c];
            k < |Select(p, c)| == multiset(Tags(p))[c] && Select(p, c)[k] == p[i].1
  {
    var c := p[i].0;
    var t, last := p[..|p| - 1], p[|p| - 1];
    assert p == t + [last] && Tags(p) == Tags(t) + [last.0];
    SelectedLength(t, c);
    if i < |t| {
      SelectedAt(t, i);
      assert Tags(p)[..i] == Tags(t)[..i];
    } else {
      assert Tags(p)[..i] == Tags(t);
    }
  }

  lemma {:induction false} SelectedLength(p: seq<Tagged>, c: Byte)
    ensures |Select(p, c)| == multiset(Tags(p))[c]
  {
    if p != [] {
      var t, last := p[..|p| - 1], p[|p| - 1];
      SelectedLength(t, c);
      assert Tags(p) == Tags(t) + [last.0];
    }
  }

  ghost predicate AscendingWithin(p: seq<Tagged>, c: Byte) {
    forall i, j :: 0 <= i < j < |p| && p[i].0 == c && p[j].0 == c ==> p[i].1 <= p[j].1
  }

  lemma {:induction false} SelectAscending(p: seq<Tagged>, c: Byte)
    requires AscendingWithin(p, c)
    ensures Ascending(Select(p, c))
    ensures forall k :: 0 <= k < |Select(p, c)| ==> exists i :: 0 <= i < |p| && p[i] == (c, Select(p, c)[k])
  {
    if p != [] {
      var t, last := p[..|p| - 1], p[|p| - 1];
      assert AscendingWithin(t, c);
      SelectAscending(t, c);
      var s, s' := Select(t, c), Select(p, c);
      forall k | 0 <= k < |s'| ensures exists i :: 0 <= i < |p| && p[i] == (c, s'[k]) {
        if k < |s| {
          var i :| 0 <= i < |t| && t[i] == (c, s[k]);
          assert p[i] == (c, s'[k]);
        } else {
          assert p[|p| - 1] == (c, s'[k]);
        }
      }
      forall i, j | 0 <= i <= j < |s'| ensures s'[i] <= s'[j] {
        if j == |s| && i < j {
          var m :| 0 <= m < |t| && t[m] == (c, s[i]);
          assert p[m].0 == c;
        }
      }
    }
  }

  lemma {:induction false} SelectUnique(p: seq<Tagged>, q: seq<Tagged>, c: Byte)
    requires multiset(p) == multiset(q) && AscendingWithin(p, c) && AscendingWithin(q, c)
    ensures Select(p, c) == Select(q, c)
  {
    SelectAscending(p, c);
    SelectAscending(q, c);
    forall k: nat ensures multiset(Select(p, c))[k] == multiset(Select(q, c))[k] {
      SelectMultiset(p, c, k);
      SelectMultiset(q, c, k);
    }
    assert multiset(Select(p, c)) == multiset(Select(q, c));
    AscendingUnique(Select(p, c), Select(q, c));
  }

  // ---- Ascending columns ----

  lemma {:induction false} BelowAllSmall(f: seq<Byte>, c: nat)
    requires forall i :: 0 <= i < |f| ==> f[i] < c
    ensures Below(f, c) == |f|
  {
    if f == [] {
      BelowEmpty(c);
    } else {
      var t := f[..|f| - 1];
      BelowAllSmall(t, c);
      assert f == t + [f[|f| - 1]];
      BelowAdd(t, f[|f| - 1], c);
    }
  }

  lemma {:induction false} BelowPrefix(f: seq<Byte>, j: nat, c: nat)
    requires j <= |f| && forall i :: j <= i < |f| ==> f[i] >= c
    ensures Below(f[..j], c) == Below(f, c)
    decreases |f|
  {
    if j == |f| {
      assert f[..j] == f;
    } else {
      var t := f[..|f| - 1];
      assert f == t + [f[|f| - 1]] && t[..j] == f[..j];
      BelowPrefix(t, j, c);
      BelowAdd(t, f[|f| - 1], c);
    }
  }

  lemma PlaceBeforeEnd(f: seq<Byte>, j: nat, c: Byte)
    requires j < |f| && forall x :: 0 <= x <= j ==> f[x] <= c
    ensures j < End(f, c)
  {
    hide Below;
    var next: nat := (c as int) + 1;
    var t := f[..j + 1];
    BelowAllSmall(t, next);
    assert f == t + f[j + 1..];
    BelowOfConcat(t, f[j + 1..], next);
  }

  lemma CountUpTo(t: seq<Byte>, c: Byte)
    requires forall x :: 0 <= x < |t| ==> t[x] <= c
    ensures Below(t, c) + multiset(t)[c] == |t|
  {
    var next: nat := (c as int) + 1;
    BelowAllSmall(t, next);
  }

  /** In an ascending column every character c lies between Below(c) and End(c). */
  lemma AscendingLayout(f: seq<Byte>, j: nat)
    requires (forall x, y :: 0 <= x < y < |f| ==> f[x] <= f[y]) && j < |f|
    ensures Below(f, f[j]) <= j < End(f, f[j]) && multiset(f[..j])[f[j]] == j - Below(f, f[j])
  {
    var c := f[j];
    BelowPrefix(f, j, c);
    CountUpTo(f[..j], c);
    PlaceBeforeEnd(f, j, c);
  }

  lemma {:induction false} BelowOfConcat(s: seq<Byte>, t: seq<Byte>, c: nat)
    ensures Below(s + t, c) >= Below(s, c)
    decreases |t|
  {
    if t == [] {
      assert s + t == s;
    } else {
      var u := t[..|t| - 1];
      BelowOfConcat(s, u, c);
      assert s + t == (s + u) + [t[|t| - 1]];
      BelowAdd(s + u, t[|t| - 1], c);
    }
  }

  lemma {:induction false} BelowOfMultiset(s: seq<Byte>, t: seq<Byte>, c: nat)
    requires multiset(s) == multiset(t)
    ensures Below(s, c) == Below(t, c)
  {
    if c > 0 {
      BelowOfMultiset(s, t, c - 1);
    }
  }

  /** The place of l[i] in the stable sort holds l[i]'s character, as often seen before as in l. */
  lemma StableRankInColumn(l: seq<Byte>, f: seq<Byte>, i: nat)
    requires multiset(l) == multiset(f) && i < |l|
    requires forall x, y :: 0 <= x < y < |f| ==> f[x] <= f[y]
    ensures var j := StableRank(l, i);
            && Below(l, l[i]) <= j < End(l, l[i]) && j < |l| == |f|
            && f[j] == l[i] && multiset(f[..j])[l[i]] == multiset(l[..i])[l[i]]
  {
    var c, j := l[i], StableRank(l, i);
    SameLength(l, f);
    PrefixCount(l, i, c);
    Buckets(l, c, c);
    BelowOfMultiset(l, f, c);
    AscendingLayout(f, j);
    Buckets(f, c, f[j]);
    Buckets(f, f[j], c);
    Buckets(f, c, c);
  }

  // ---- Rotations one character on ----

  lemma KeyTail(b: seq<Byte>, i: nat, j: nat)
    requires i < |b| && j < |b|
    ensures
      var n := |b|;
      var u, v := Key(b, Next(n, i), n - 1), Key(b, Next(n, j), n - 1);
      && (Key(b, Next(n, i), n) < Key(b, Next(n, j), n) <==> u < v || (u == v && b[i] < b[j]))
      && (Key(b, Next(n, i), n) == Key(b, Next(n, j), n) <==> u == v && b[i] == b[j])
  {
    var n := |b|;
    KeyOrder(b, Next(n, i), Next(n, j), n - 1, 1);
    assert Advance(n, Next(n, i), n - 1) == i && Advance(n, Next(n, j), n - 1) == j;
    assert Pow256(0) == 1;
    assert Key(b, i, 1) == b[i] && Key(b, j, 1) == b[j];
  }

  /** Rotations with the same first character compare as they do without it. */
  lemma KeyNext(b: seq<Byte>, i: nat, j: nat)
    requires i < |b| && j < |b|
    ensures b[i] == b[j] ==>
              (Key(b, i, |b|) <= Key(b, j, |b|) <==> Key(b, Next(|b|, i), |b|) <= Key(b, Next(|b|, j), |b|))
    ensures Key(b, i, |b|) == Key(b, j, |b|) ==>
              b[i] == b[j] && Key(b, Next(|b|, i), |b|) == Key(b, Next(|b|, j), |b|)
              && b[Prev(|b|, i)] == b[Prev(|b|, j)]
  {
    KeyHead(b, i, j, |b|);
    KeyTail(b, i, j);
    var i', j' := Prev(|b|, i), Prev(|b|, j);
    assert Next(|b|, i') == i && Next(|b|, j') == j;
    KeyTail(b, i', j');
  }

  ghost function EndPairs(b: seq<Byte>): (p: seq<Tagged>)
    ensures |p| == |b| && forall q :: 0 <= q < |b| ==> p[q] == (b[Prev(|b|, q)], Key(b, q, |b|))
  {
    seq(|b|, q requires 0 <= q < |b| => (b[Prev(|b|, q)], Key(b, q, |b|)))
  }

  ghost function StartPairs(b: seq<Byte>): (p: seq<Tagged>)
    ensures |p| == |b| && forall q :: 0 <= q < |b| ==> p[q] == (b[q], Key(b, Next(|b|, q), |b|))
  {
    seq(|b|, q requires 0 <= q < |b| => (b[q], Key(b, Next(|b|, q), |b|)))
  }

  lemma RotateMultiset<T>(p: seq<T>, q: seq<T>)
    requires p != [] && |q| == |p| && q[|p| - 1] == p[0]
    requires forall k :: 0 <= k < |p| - 1 ==> q[k] == p[k + 1]
    ensures multiset(p) == multiset(q)
  {
    assert q == p[1..] + [p[0]];
    assert p == [p[0]] + p[1..];
  }

  lemma SamePairs(b: seq<Byte>)
    requires b != []
    ensures multiset(EndPairs(b)) == multiset(StartPairs(b))
  {
    var p, q := EndPairs(b), StartPairs(b);
    hide Key;
    forall k | 0 <= k < |p| - 1 ensures q[k] == p[k + 1] {
      var m: nat := k + 1;
      assert Next(|b|, k) == m && Prev(|b|, m) == k;
    }
    RotateMultiset(p, q);
  }

  /** Row r of the sorted list reads as the block does from position q. */
  ghost predicate Shows(b: seq<Byte>, ptr: seq<nat>, r: nat, q: nat) {
    r < |ptr| && ptr[r] < |b| && q < |b| && Key(b, ptr[r], |b|) == Key(b, q, |b|)
  }

  lemma RowPairs(b: seq<Byte>, ptr: seq<nat>)
    requires SortedRotations(b, ptr) && b != []
    ensures multiset(Gather(EndPairs(b), ptr)) == multiset(Gather(StartPairs(b), ptr))
    ensures Tags(Gather(EndPairs(b), ptr)) == LastColumn(b, ptr)
    ensures Tags(Gather(StartPairs(b), ptr)) == Gather(b, ptr)
  {
    hide Key;
    GatherIota(EndPairs(b), ptr);
    GatherIota(StartPairs(b), ptr);
    SamePairs(b);
  }

  lemma RowsAscend(b: seq<Byte>, ptr: seq<nat>, c: Byte)
    requires SortedRotations(b, ptr)
    ensures AscendingWithin(Gather(EndPairs(b), ptr), c) && AscendingWithin(Gather(StartPairs(b), ptr), c)
  {
    var q := Gather(StartPairs(b), ptr);
    forall i, j | 0 <= i < j < |q| && q[i].0 == c && q[j].0 == c ensures q[i].1 <= q[j].1 {
      KeyNext(b, ptr[i], ptr[j]);
    }
  }

  lemma Columns(b: seq<Byte>, ptr: seq<nat>)
    requires SortedRotations(b, ptr) && b != []
    ensures multiset(LastColumn(b, ptr)) == multiset(Gather(b, ptr)) == multiset(b)
    ensures forall x, y :: 0 <= x < y < |b| ==> Gather(b, ptr)[x] <= Gather(b, ptr)[y]
  {
    GatherIota(b, ptr);
    var before := seq(|b|, q requires 0 <= q < |b| => b[Prev(|b|, q)]);
    GatherIota(before, ptr);
    assert LastColumn(b, ptr) == Gather(before, ptr);
    assert before == [b[|b| - 1]] + b[..|b| - 1] && b == b[..|b| - 1] + [b[|b| - 1]];
    forall x, y | 0 <= x < y < |b| ensures b[ptr[x]] <= b[ptr[y]] {
      KeyHead(b, ptr[x], ptr[y], |b|);
    }
  }

  /**
   * The heart of the inverse transform: the stable sort of the last column takes
   * row i to a row that starts with the last character of row i and goes on as row i.
   */
  lemma StableRankShifts(b: seq<Byte>, ptr: seq<nat>, i: nat)
    requires SortedRotations(b, ptr) && i < |b|
    ensures var l := LastColumn(b, ptr); var j := StableRank(l, i);
            && Below(l, l[i]) <= j < End(l, l[i]) && j < |b|
            && b[ptr[j]] == l[i]
            && Key(b, Next(|b|, ptr[j]), |b|) == Key(b, ptr[i], |b|)
  {
    var l, f := LastColumn(b, ptr), Gather(b, ptr);
    var p, q := Gather(EndPairs(b), ptr), Gather(StartPairs(b), ptr);
    RowPairs(b, ptr);
    Columns(b, ptr);
    StableRankInColumn(l, f, i);
    var c, j := l[i], StableRank(l, i);
    RowsAscend(b, ptr, c);
    SelectUnique(p, q, c);
    SelectedAt(p, i);
    SelectedAt(q, j);
  }

  /** Following the inverse of the stable sort moves one position on in the block. */
  lemma ShowsNext(b: seq<Byte>, ptr: seq<nat>, r: nat, q: nat, i: nat)
    requires SortedRotations(b, ptr) && Shows(b, ptr, r, q) && i < |b|
    requires StableRank(LastColumn(b, ptr), i) == r
    ensures Shows(b, ptr, i, Next(|b|, q)) && b[ptr[r]] == b[q] && LastColumn(b, ptr)[i] == b[q]
  {
    StableRankShifts(b, ptr, i);
    KeyNext(b, ptr[r], q);
  }
}

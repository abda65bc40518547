/** The decoder's move-to-front list, kept as 16 windows of 16 entries in a larger array. */
module MtfWindows {
  import opened Permutations
  import opened MoveToFront

  const MTFA_SIZE := 4096
  const MTFL_SIZE := 16
  const WINDOWS := 256 / MTFL_SIZE

  /** The windows lie in order, disjoint, inside the array. */
  ghost predicate Spaced(base: seq<nat>) {
    && |base| == WINDOWS && base[WINDOWS - 1] + MTFL_SIZE <= MTFA_SIZE
    && forall i :: 0 <= i < WINDOWS - 1 ==> base[i] + MTFL_SIZE <= base[i + 1]
  }

  lemma {:induction false} SpacedApart(base: seq<nat>, i: nat, k: nat)
    requires Spaced(base) && i <= k < WINDOWS
    ensures base[i] + MTFL_SIZE * (k - i) <= base[k]
    decreases k
  {
    if i < k {
      SpacedApart(base, i, k - 1);
    }
  }

  /** Every window lies inside the array. */
  lemma SpacedInside(base: seq<nat>)
    requires Spaced(base)
    ensures forall i :: 0 <= i < WINDOWS ==> base[i] + MTFL_SIZE * (WINDOWS - i) <= MTFA_SIZE
    ensures forall i, k :: 0 <= i < k < WINDOWS ==> base[i] + MTFL_SIZE <= base[k]
  {
    forall i, k | 0 <= i <= k < WINDOWS ensures base[i] + MTFL_SIZE * (k - i) <= base[k] {
      SpacedApart(base, i, k);
    }
    forall i | 0 <= i < WINDOWS ensures base[i] + MTFL_SIZE * (WINDOWS - i) <= MTFA_SIZE {
      SpacedApart(base, i, WINDOWS - 1);
    }
  }

  /** Entry t of window i, which starts at b, is that of y. */
  ghost predicate At(mtfa: seq<nat>, b: int, y: seq<nat>, i: nat, t: nat) {
    0 <= b + t < |mtfa| && MTFL_SIZE * i + t < |y| && mtfa[b + t] == y[MTFL_SIZE * i + t]
  }

  /** Entries from..upto of window i are those of y. */
  ghost predicate Holds(mtfa: seq<nat>, b: int, y: seq<nat>, i: nat, from: nat, upto: nat) {
    && |mtfa| == MTFA_SIZE && |y| == 256 && i < WINDOWS && upto <= MTFL_SIZE
    && forall t: nat :: from <= t < upto ==> At(mtfa, b, y, i, t)
  }

  /** The windows, read one after the other, are y. */
  ghost predicate Lists(mtfa: seq<nat>, base: seq<nat>, y: seq<nat>) {
    && Spaced(base) && |mtfa| == MTFA_SIZE && |y| == 256
    && forall i :: 0 <= i < WINDOWS ==> Holds(mtfa, base[i], y, i, 0, MTFL_SIZE)
  }

  lemma ListsAt(mtfa: seq<nat>, base: seq<nat>, y: seq<nat>, n: nat)
    requires Lists(mtfa, base, y) && n < 256
    ensures |mtfa| == MTFA_SIZE && |base| == WINDOWS && |y| == 256
    ensures n / MTFL_SIZE < WINDOWS && base[n / MTFL_SIZE] + MTFL_SIZE <= MTFA_SIZE
    ensures mtfa[base[n / MTFL_SIZE] + n % MTFL_SIZE] == y[n]
  {
    SpacedInside(base);
    assert Holds(mtfa, base[n / MTFL_SIZE], y, n / MTFL_SIZE, 0, MTFL_SIZE);
    assert At(mtfa, base[n / MTFL_SIZE], y, n / MTFL_SIZE, n % MTFL_SIZE);
  }

  // ---- Laying the windows out at the top of the array ----

  const TOP: nat := MTFA_SIZE - 256

  /** Windows from i on lie at the top and hold y, as do entries from j on of window i - 1. */
  ghost predicate Packed(mtfa: seq<nat>, base: seq<nat>, y: seq<nat>, i: nat, j: nat) {
    && |mtfa| == MTFA_SIZE && |base| == WINDOWS && |y| == 256 && i <= WINDOWS && j <= MTFL_SIZE
    && (forall k :: i <= k < WINDOWS ==> base[k] == TOP + MTFL_SIZE * k)
    && forall n :: 0 <= n < 256 && n + MTFL_SIZE >= MTFL_SIZE * i + j ==> mtfa[TOP + n] == y[n]
  }

  lemma PackedLists(mtfa: seq<nat>, base: seq<nat>, y: seq<nat>)
    requires Packed(mtfa, base, y, 0, 0)
    ensures Lists(mtfa, base, y) && base[0] > 0
  {
    forall i | 0 <= i < WINDOWS ensures Holds(mtfa, base[i], y, i, 0, MTFL_SIZE) {
      forall t: nat | t < MTFL_SIZE ensures At(mtfa, base[i], y, i, t) {
        assert mtfa[TOP + (MTFL_SIZE * i + t)] == y[MTFL_SIZE * i + t];
      }
    }
  }

  /** The starting list 0, 1, ..., 255. */
  method InitWindows(mtfa: array<nat>, mtfbase: array<nat>)
    requires mtfa != mtfbase && mtfa.Length == MTFA_SIZE && mtfbase.Length == WINDOWS
    modifies mtfa, mtfbase
    ensures Lists(mtfa[..], mtfbase[..], Iota(256)) && mtfbase[0] > 0
  {
    var kk: int := MTFA_SIZE - 1;
    var ii: int := WINDOWS - 1;
    while ii >= 0
      invariant -1 <= ii < WINDOWS && kk == TOP + MTFL_SIZE * (ii + 1) - 1
      invariant Packed(mtfa[..], mtfbase[..], Iota(256), ii + 1, MTFL_SIZE)
    {
      var jj: int := MTFL_SIZE - 1;
      while jj >= 0
        invariant -1 <= jj < MTFL_SIZE && kk == TOP + MTFL_SIZE * ii + jj
        invariant Packed(mtfa[..], mtfbase[..], Iota(256), ii + 1, jj + 1)
      {
        mtfa[kk] := ii * MTFL_SIZE + jj;
        kk := kk - 1;
        jj := jj - 1;
      }
      mtfbase[ii] := kk + 1;
      ii := ii - 1;
    }
    PackedLists(mtfa[..], mtfbase[..], Iota(256));
  }

  /** While moving the windows to the top: what has not been moved is where it was. */
  ghost predicate Moving(mtfa: seq<nat>, base: seq<nat>, mtfa0: seq<nat>, base0: seq<nat>, y: seq<nat>, i: nat, j: nat) {
    && Lists(mtfa0, base0, y) && Packed(mtfa, base, y, i, j)
    && (forall k :: 0 <= k < i ==> base[k] == base0[k])
    && forall p :: 0 <= p < MTFA_SIZE && p + MTFL_SIZE < TOP + MTFL_SIZE * i + j ==> mtfa[p] == mtfa0[p]
  }

  lemma MoveEntry(mtfa: seq<nat>, base: seq<nat>, mtfa0: seq<nat>, base0: seq<nat>, y: seq<nat>, i: nat, j: nat)
    requires Moving(mtfa, base, mtfa0, base0, y, i + 1, j + 1) && i < WINDOWS && j < MTFL_SIZE
    ensures base[i] + j < MTFA_SIZE && TOP + MTFL_SIZE * i + j < MTFA_SIZE
    ensures Moving(mtfa[TOP + MTFL_SIZE * i + j := mtfa[base[i] + j]], base, mtfa0, base0, y, i + 1, j)
  {
    SpacedInside(base0);
    assert Holds(mtfa0, base0[i], y, i, 0, MTFL_SIZE);
    assert At(mtfa0, base0[i], y, i, j);
    assert mtfa[base[i] + j] == mtfa0[base0[i] + j];
  }

  lemma MoveWindow(mtfa: seq<nat>, base: seq<nat>, mtfa0: seq<nat>, base0: seq<nat>, y: seq<nat>, i: nat)
    requires Moving(mtfa, base, mtfa0, base0, y, i + 1, 0) && i < WINDOWS
    ensures Moving(mtfa, base[i := TOP + MTFL_SIZE * i], mtfa0, base0, y, i, MTFL_SIZE)
  {
  }

  /** Moves all windows back to the top, highest first, leaving the list as it is. */
  method Rebuild(mtfa: array<nat>, mtfbase: array<nat>, ghost y: seq<nat>)
    requires mtfa != mtfbase && mtfa.Length == MTFA_SIZE && mtfbase.Length == WINDOWS
    requires Lists(mtfa[..], mtfbase[..], y)
    modifies mtfa, mtfbase
    ensures Lists(mtfa[..], mtfbase[..], y) && mtfbase[0] > 0
  {
    ghost var a0, b0 := mtfa[..], mtfbase[..];
    var kk: int := MTFA_SIZE - 1;
    var ii: int := WINDOWS - 1;
    assert Moving(a0, b0, a0, b0, y, WINDOWS, MTFL_SIZE);
    hide Moving, Lists, Packed;
    while ii >= 0
      invariant -1 <= ii < WINDOWS && kk == TOP + MTFL_SIZE * (ii + 1) - 1
      invariant Moving(mtfa[..], mtfbase[..], a0, b0, y, ii + 1, MTFL_SIZE)
    {
      var jj: int := MTFL_SIZE - 1;
      while jj >= 0
        invariant -1 <= jj < MTFL_SIZE && kk == TOP + MTFL_SIZE * ii + jj
        invariant Moving(mtfa[..], mtfbase[..], a0, b0, y, ii + 1, jj + 1)
      {
        MoveEntry(mtfa[..], mtfbase[..], a0, b0, y, ii, jj);
        mtfa[kk] := mtfa[mtfbase[ii] + jj];
        kk := kk - 1;
        jj := jj - 1;
      }
      MoveWindow(mtfa[..], mtfbase[..], a0, b0, y, ii);
      mtfbase[ii] := kk + 1;
      ii := ii - 1;
    }
    MovedAll(mtfa[..], mtfbase[..], a0, b0, y);
  }

  lemma MovedAll(mtfa: seq<nat>, base: seq<nat>, mtfa0: seq<nat>, base0: seq<nat>, y: seq<nat>)
    requires Moving(mtfa, base, mtfa0, base0, y, 0, MTFL_SIZE)
    ensures Lists(mtfa, base, y) && base[0] > 0
  {
    PackedLists(mtfa, base, y);
  }

  // ---- Moving an entry to the front ----

  /** Positions below n of the list at pp moved up by one from k on. */
  ghost predicate ShiftedTo(mtfa: seq<nat>, mtfa0: seq<nat>, pp: nat, k: nat, n: nat) {
    && |mtfa| == |mtfa0| && k <= n && pp + n < |mtfa|
    && (forall p :: 0 <= p <= pp + k || pp + n < p < |mtfa| ==> mtfa[p] == mtfa0[p])
    && forall p :: pp + k < p <= pp + n ==> mtfa[p] == mtfa0[p - 1]
  }

  lemma ShiftOne(mtfa: seq<nat>, mtfa0: seq<nat>, pp: nat, k: nat, n: nat)
    requires ShiftedTo(mtfa, mtfa0, pp, k, n) && k > 0
    ensures pp + n < |mtfa| && ShiftedTo(mtfa[pp + k := mtfa[pp + k - 1]], mtfa0, pp, k - 1, n)
  {
  }

  /** Moves entries pp..pp+n-1 up by one place, four at a time while possible. */
  method ShiftFirst(mtfa: array<nat>, pp: nat, n: nat)
    requires pp + n < mtfa.Length
    modifies mtfa
    ensures ShiftedTo(mtfa[..], old(mtfa[..]), pp, 0, n)
  {
    ghost var a0 := mtfa[..];
    var nn := n;
    assert ShiftedTo(mtfa[..], a0, pp, nn, n);
    hide ShiftedTo;
    while nn > 3
      invariant 0 <= nn <= n && ShiftedTo(mtfa[..], a0, pp, nn, n)
    {
      var z := pp + nn;
      ShiftOne(mtfa[..], a0, pp, nn, n);
      mtfa[z] := mtfa[z - 1];
      ShiftOne(mtfa[..], a0, pp, nn - 1, n);
      mtfa[z - 1] := mtfa[z - 2];
      ShiftOne(mtfa[..], a0, pp, nn - 2, n);
      mtfa[z - 2] := mtfa[z - 3];
      ShiftOne(mtfa[..], a0, pp, nn - 3, n);
      mtfa[z - 3] := mtfa[z - 4];
      nn := nn - 4;
    }
    while nn > 0
      invariant 0 <= nn <= n && ShiftedTo(mtfa[..], a0, pp, nn, n)
    {
      ShiftOne(mtfa[..], a0, pp, nn, n);
      mtfa[pp + nn] := mtfa[pp + nn - 1];
      nn := nn - 1;
    }
  }

  /** Moves entries from the start of a window up by one place, from position pp0 down. */
  method ShiftWithin(mtfa: array<nat>, start: nat, off: nat)
    requires start + off < mtfa.Length
    modifies mtfa
    ensures ShiftedTo(mtfa[..], old(mtfa[..]), start, 0, off)
  {
    ghost var a0 := mtfa[..];
    var pp := start + off;
    assert ShiftedTo(mtfa[..], a0, start, off, off);
    hide ShiftedTo;
    while pp > start
      invariant start <= pp <= start + off && ShiftedTo(mtfa[..], a0, start, pp - start, off)
    {
      ShiftOne(mtfa[..], a0, start, pp - start, off);
      mtfa[pp] := mtfa[pp - 1];
      pp := pp - 1;
    }
  }

  lemma FirstWindowMoved(mtfa0: seq<nat>, mtfa: seq<nat>, base: seq<nat>, y: seq<nat>, nn: nat)
    requires Lists(mtfa0, base, y) && nn < MTFL_SIZE && ShiftedTo(mtfa, mtfa0, base[0], 0, nn)
    ensures Lists(mtfa[base[0] := y[nn]], base, Front(y, nn))
  {
    SpacedInside(base);
    var a, r := mtfa[base[0] := y[nn]], Front(y, nn);
    forall i | 0 <= i < WINDOWS ensures Holds(a, base[i], r, i, 0, MTFL_SIZE) {
      assert Holds(mtfa0, base[i], y, i, 0, MTFL_SIZE);
      forall t: nat | t < MTFL_SIZE ensures At(a, base[i], r, i, t) {
        assert At(mtfa0, base[i], y, i, t);
        if i == 0 && 0 < t <= nn {
          assert At(mtfa0, base[i], y, i, t - 1);
          assert mtfa[base[0] + t] == mtfa0[base[0] + t - 1];
          assert r[t] == y[t - 1];
        } else if i > 0 || t > 0 {
          assert mtfa[base[i] + t] == mtfa0[base[i] + t];
          assert r[MTFL_SIZE * i + t] == y[MTFL_SIZE * i + t];
        }
      }
    }
  }

  /**
   * Windows above j hold r, those below j still hold y, and window j, starting at base[j], holds
   * r without its first entry; the cell before it is free.
   */
  ghost predicate Sliding(mtfa: seq<nat>, base: seq<nat>, y: seq<nat>, nn: nat, j: nat) {
    && |mtfa| == MTFA_SIZE && |base| == WINDOWS && |y| == 256 && nn < 256 && j <= nn / MTFL_SIZE < WINDOWS
    && base[0] > 0 && base[WINDOWS - 1] + (if j == WINDOWS - 1 then MTFL_SIZE - 1 else MTFL_SIZE) <= MTFA_SIZE
    && (forall i :: 0 <= i < WINDOWS - 1 ==> base[i] + (if i == j then MTFL_SIZE - 1 else MTFL_SIZE) <= base[i + 1])
    && (forall i :: 0 <= i < j ==> Holds(mtfa, base[i], y, i, 0, MTFL_SIZE))
    && Holds(mtfa, base[j] as int - 1, Front(y, nn), j, 1, MTFL_SIZE)
    && (forall i :: j < i < WINDOWS ==> Holds(mtfa, base[i], Front(y, nn), i, 0, MTFL_SIZE))
  }

  lemma SlidingStarts(mtfa0: seq<nat>, mtfa: seq<nat>, base: seq<nat>, y: seq<nat>, nn: nat)
    requires Lists(mtfa0, base, y) && MTFL_SIZE <= nn < 256 && base[0] > 0
    requires var lno, off := nn / MTFL_SIZE, nn % MTFL_SIZE; ShiftedTo(mtfa, mtfa0, base[lno], 0, off)
    ensures var lno := nn / MTFL_SIZE; Sliding(mtfa, base[lno := base[lno] + 1], y, nn, lno)
  {
    SpacedInside(base);
    var lno, off, r := nn / MTFL_SIZE, nn % MTFL_SIZE, Front(y, nn);
    forall i | 0 <= i < WINDOWS ensures Holds(mtfa, base[i], if i < lno then y else r, i, if i == lno then 1 else 0, MTFL_SIZE) {
      assert Holds(mtfa0, base[i], y, i, 0, MTFL_SIZE);
      var b, want, from := base[i], if i < lno then y else r, if i == lno then 1 else 0;
      forall t: nat | from <= t < MTFL_SIZE ensures At(mtfa, b, want, i, t) {
        assert At(mtfa0, b, y, i, t);
        if i == lno && t <= off {
          assert At(mtfa0, b, y, i, t - 1);
          assert mtfa[b + t] == mtfa0[b + t - 1];
          assert r[MTFL_SIZE * i + t] == y[MTFL_SIZE * i + t - 1];
        } else {
          assert mtfa[b + t] == mtfa0[b + t];
        }
      }
    }
  }

  /** Writing a cell outside a window leaves the window as it is. */
  lemma CellFrame(mtfa: seq<nat>, x: nat, v: nat, b: nat, y: seq<nat>, i: nat, from: nat)
    requires Holds(mtfa, b, y, i, from, MTFL_SIZE) && x < |mtfa| && (x < b + from || b + MTFL_SIZE <= x)
    ensures Holds(mtfa[x := v], b, y, i, from, MTFL_SIZE)
  {
    var next := mtfa[x := v];
    forall t: nat | from <= t < MTFL_SIZE ensures At(next, b, y, i, t) {
      assert At(mtfa, b, y, i, t);
    }
  }

  lemma SlidingStep(mtfa: seq<nat>, base: seq<nat>, y: seq<nat>, nn: nat, j: nat)
    requires Sliding(mtfa, base, y, nn, j) && j > 0
    ensures 0 < base[j] <= MTFA_SIZE && base[j - 1] + MTFL_SIZE - 1 < MTFA_SIZE
    ensures Sliding(mtfa[base[j] - 1 := mtfa[base[j - 1] + MTFL_SIZE - 1]], base[j := base[j] - 1], y, nn, j - 1)
  {
    SlidingInside(mtfa, base, y, nn, j);
    var r, x := Front(y, nn), base[j] - 1;
    assert Holds(mtfa, base[j - 1], y, j - 1, 0, MTFL_SIZE);
    var a, b := mtfa[x := mtfa[base[j - 1] + MTFL_SIZE - 1]], base[j := x];
    assert At(mtfa, base[j - 1], y, j - 1, MTFL_SIZE - 1);
    assert mtfa[base[j - 1] + (MTFL_SIZE - 1)] == r[MTFL_SIZE * j];
    forall i | 0 <= i < j - 1 ensures Holds(a, b[i], y, i, 0, MTFL_SIZE) {
      assert Holds(mtfa, base[i], y, i, 0, MTFL_SIZE);
      CellFrame(mtfa, x, a[x], base[i], y, i, 0);
    }
    var before, i' := b[j - 1] as int - 1, j - 1;
    assert Holds(a, before, r, i', 1, MTFL_SIZE) by {
      forall t: nat | 1 <= t < MTFL_SIZE ensures At(a, before, r, i', t) {
        assert At(mtfa, base[j - 1], y, j - 1, t - 1);
      }
    }
    assert Holds(a, x, r, j, 0, MTFL_SIZE) by {
      forall t: nat | t < MTFL_SIZE ensures At(a, x, r, j, t) {
        assert t > 0 ==> At(mtfa, x, r, j, t);
      }
    }
    forall i | j < i < WINDOWS ensures Holds(a, b[i], r, i, 0, MTFL_SIZE) {
      CellFrame(mtfa, x, a[x], base[i], r, i, 0);
    }
  }

  lemma {:induction false} SlidingApart(mtfa: seq<nat>, base: seq<nat>, y: seq<nat>, nn: nat, j: nat, i: nat, k: nat)
    requires Sliding(mtfa, base, y, nn, j) && i <= k < WINDOWS
    ensures base[i] + MTFL_SIZE * (k - i) <= base[k] + if i <= j < k then 1 else 0
    decreases k
  {
    if i < k {
      SlidingApart(mtfa, base, y, nn, j, i, k - 1);
    }
  }

  lemma SlidingInside(mtfa: seq<nat>, base: seq<nat>, y: seq<nat>, nn: nat, j: nat)
    requires Sliding(mtfa, base, y, nn, j)
    ensures forall i :: 0 <= i < j ==> base[i] + MTFL_SIZE <= base[j] <= MTFA_SIZE
    ensures forall i :: j < i < WINDOWS ==> base[j] < base[i]
    ensures forall i, k :: 0 <= i < k < j ==> base[i] + MTFL_SIZE <= base[k]
    ensures 0 < base[j] <= MTFA_SIZE
  {
    forall i, k | 0 <= i <= k < WINDOWS ensures base[i] + MTFL_SIZE * (k - i) <= base[k] + if i <= j < k then 1 else 0 {
      SlidingApart(mtfa, base, y, nn, j, i, k);
    }
    assert base[j] + MTFL_SIZE * (WINDOWS - 1 - j) <= base[WINDOWS - 1] + if j < WINDOWS - 1 then 1 else 0;
    assert base[0] + MTFL_SIZE * (j - 0) <= base[j];
  }

  lemma SlidingEnds(mtfa: seq<nat>, base: seq<nat>, y: seq<nat>, nn: nat)
    requires Sliding(mtfa, base, y, nn, 0)
    ensures 0 < base[0] <= MTFA_SIZE
    ensures Lists(mtfa[base[0] - 1 := y[nn]], base[0 := base[0] - 1], Front(y, nn))
  {
    SlidingInside(mtfa, base, y, nn, 0);
    var r := Front(y, nn);
    var a, b := mtfa[base[0] - 1 := y[nn]], base[0 := base[0] - 1];
    forall i | 0 < i < WINDOWS ensures Holds(a, b[i], r, i, 0, MTFL_SIZE) {
      CellFrame(mtfa, base[0] - 1, y[nn], base[i], r, i, 0);
    }
    assert Holds(a, b[0], r, 0, 0, MTFL_SIZE) by {
      forall t: nat | t < MTFL_SIZE ensures At(a, b[0], r, 0, t) {
        assert t > 0 ==> At(mtfa, base[0] - 1, r, 0, t);
      }
    }
  }

  lemma SlidingSize(mtfa: seq<nat>, base: seq<nat>, y: seq<nat>, nn: nat, j: nat)
    requires Sliding(mtfa, base, y, nn, j)
    ensures j < WINDOWS == |base| && |mtfa| == MTFA_SIZE
  {
  }

  /** Opens a place at the front of the windows below the one holding entry nn. */
  method SlideDown(mtfa: array<nat>, mtfbase: array<nat>, lno0: nat, ghost y: seq<nat>, ghost nn: nat)
    requires mtfa != mtfbase && Sliding(mtfa[..], mtfbase[..], y, nn, lno0)
    modifies mtfa, mtfbase
    ensures Sliding(mtfa[..], mtfbase[..], y, nn, 0)
  {
    hide Sliding;
    var lno := lno0;
    while lno > 0
      invariant 0 <= lno && Sliding(mtfa[..], mtfbase[..], y, nn, lno)
    {
      SlidingSize(mtfa[..], mtfbase[..], y, nn, lno);
      SlidingStep(mtfa[..], mtfbase[..], y, nn, lno);
      mtfbase[lno] := mtfbase[lno] - 1;
      mtfa[mtfbase[lno]] := mtfa[mtfbase[lno - 1] + MTFL_SIZE - 1];
      lno := lno - 1;
    }
  }

  /**
   * Takes entry nn of the list and moves it to the front. What the windows list is exactly the
   * plain list with that entry moved, and there is room for the next move.
   */
  method TakeToFront(mtfa: array<nat>, mtfbase: array<nat>, nn: nat, ghost y: seq<nat>) returns (uc: nat)
    requires mtfa != mtfbase && mtfa.Length == MTFA_SIZE && mtfbase.Length == WINDOWS && nn < 256
    requires Lists(mtfa[..], mtfbase[..], y) && mtfbase[0] > 0
    modifies mtfa, mtfbase
    ensures |y| == 256 && uc == y[nn]
    ensures Lists(mtfa[..], mtfbase[..], Front(y, nn)) && mtfbase[0] > 0
  {
    ghost var a0, b0 := mtfa[..], mtfbase[..];
    ListsAt(a0, b0, y, nn);
    hide Lists, Sliding, ShiftedTo, Front;
    if nn < MTFL_SIZE {
      var pp := mtfbase[0];
      uc := mtfa[pp + nn];
      ShiftFirst(mtfa, pp, nn);
      FirstWindowMoved(a0, mtfa[..], b0, y, nn);
      mtfa[pp] := uc;
    } else {
      var lno, off := nn / MTFL_SIZE, nn % MTFL_SIZE;
      uc := mtfa[mtfbase[lno] + off];
      ShiftWithin(mtfa, mtfbase[lno], off);
      SlidingStarts(a0, mtfa[..], b0, y, nn);
      mtfbase[lno] := mtfbase[lno] + 1;
      SlideDown(mtfa, mtfbase, lno, y, nn);
      SlidingEnds(mtfa[..], mtfbase[..], y, nn);
      mtfbase[0] := mtfbase[0] - 1;
      mtfa[mtfbase[0]] := uc;
      if mtfbase[0] == 0 {
        Rebuild(mtfa, mtfbase, Front(y, nn));
      }
    }
  }
}

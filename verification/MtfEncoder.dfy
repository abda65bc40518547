/** Move-to-front coding of the sorted block, written over the sorted pointers themselves. */
module MtfEncoder {
  import opened Permutations
  import opened MoveToFront

  const FREQS := 258

  /** The i-th 32-bit pointer in a store of 16-bit halves, low half first. */
  function Pointer(halves: seq<nat>, i: nat): nat
    requires 2 * i + 1 < |halves|
  {
    halves[2 * i] + 0x1_0000 * halves[2 * i + 1]
  }

  /** The pointers from i on have not been written over. */
  ghost predicate Unread(halves: seq<nat>, ptr: seq<nat>, i: nat) {
    |halves| == 2 * |ptr| && forall k :: i <= k < |ptr| ==> Pointer(halves, k) == ptr[k]
  }

  /** freq counts the codes in out. */
  ghost predicate Counts(freq: seq<nat>, out: seq<nat>) {
    |freq| == FREQS && forall c :: 0 <= c < FREQS ==> freq[c] == multiset(out)[c]
  }

  lemma CountsStep(freq: seq<nat>, out: seq<nat>, code: nat)
    requires Counts(freq, out) && code < FREQS
    ensures Counts(freq[code := freq[code] + 1], out + [code])
  {
  }

  method Emit(mtfv: array<nat>, mtfFreq: array<nat>, wr: nat, code: nat)
    requires mtfv != mtfFreq && wr < mtfv.Length && code < FREQS && Counts(mtfFreq[..], mtfv[..wr])
    modifies mtfv, mtfFreq
    ensures mtfv[..] == old(mtfv[..])[wr := code]
    ensures mtfv[..wr + 1] == old(mtfv[..wr]) + [code]
    ensures Counts(mtfFreq[..], mtfv[..wr + 1])
  {
    CountsStep(mtfFreq[..], mtfv[..wr], code);
    hide Counts;
    assert mtfFreq[..][code := mtfFreq[code] + 1][..] == mtfFreq[..][code := mtfFreq[code] + 1];
    mtfv[wr] := code;
    ghost var f := mtfFreq[..];
    CountsLength(f, mtfv[..wr]);
    mtfFreq[code] := mtfFreq[code] + 1;
    assert mtfFreq[..] == f[code := f[code] + 1];
  }

  lemma CountsLength(freq: seq<nat>, out: seq<nat>)
    requires Counts(freq, out)
    ensures |freq| == FREQS
  {
  }

  lemma RunStep(z: nat)
    requires z > 0
    ensures RunCode(z) == [(z - 1) % 2] + RunCode((z - 1) / 2)
    ensures z - 1 >= 2 ==> (z - 1 - 2) / 2 + 1 == (z - 1) / 2
    ensures z - 1 < 2 ==> RunCode((z - 1) / 2) == []
  {
  }

  /** Of a run, zPend + 1 zeros are still to be sent if more, none otherwise. */
  ghost predicate Sending(out: seq<nat>, more: bool, zPend: nat, want: seq<nat>) {
    want == out + if more then RunCode(zPend + 1) else []
  }

  lemma SendingStep(out: seq<nat>, zPend: nat, want: seq<nat>)
    requires Sending(out, true, zPend, want)
    ensures zPend >= 2 ==> Sending(out + [zPend % 2], true, (zPend - 2) / 2, want)
    ensures zPend < 2 ==> Sending(out + [zPend % 2], false, zPend, want)
  {
    RunStep(zPend + 1);
    hide RunCode;
    assert out + ([zPend % 2] + RunCode(zPend / 2)) == out + [zPend % 2] + RunCode(zPend / 2);
  }

  /** Sends a run of z zeros in bijective base 2. */
  method EmitRun(mtfv: array<nat>, mtfFreq: array<nat>, wr0: nat, z: nat) returns (wr: nat)
    requires mtfv != mtfFreq && z > 0 && wr0 + z <= mtfv.Length && Counts(mtfFreq[..], mtfv[..wr0])
    modifies mtfv, mtfFreq
    ensures wr == wr0 + |RunCode(z)| <= wr0 + z && Counts(mtfFreq[..], mtfv[..wr])
    ensures mtfv[..wr] == old(mtfv[..wr0]) + RunCode(z)
    ensures forall k :: wr <= k < mtfv.Length ==> mtfv[k] == old(mtfv[k])
  {
    var zPend: nat := z - 1;
    wr := wr0;
    ghost var want := mtfv[..wr0] + RunCode(z);
    assert Sending(mtfv[..wr], true, zPend, want);
    RunBound(z);
    hide Counts, RunCode, Sending;
    var more := true;
    while more
      invariant wr0 <= wr && (more ==> wr + zPend < wr0 + z) && wr <= mtfv.Length
      invariant Sending(mtfv[..wr], more, zPend, want)
      invariant Counts(mtfFreq[..], mtfv[..wr])
      invariant forall k :: wr <= k < mtfv.Length ==> mtfv[k] == old(mtfv[k])
      decreases more, zPend
    {
      SendingStep(mtfv[..wr], zPend, want);
      Emit(mtfv, mtfFreq, wr, if zPend % 2 == 1 then RUNB else RUNA);
      wr := wr + 1;
      if zPend < 2 {
        more := false;
      } else {
        zPend := (zPend - 2) / 2;
      }
    }
    Sent(mtfv[..wr], zPend, want);
  }

  lemma Sent(out: seq<nat>, zPend: nat, want: seq<nat>)
    requires Sending(out, false, zPend, want)
    ensures out == want
  {
  }

  lemma RunBound(z: nat)
    ensures |RunCode(z)| <= z
  {
  }

  /** Looks c up from the front, pushing the entries passed one place back, and puts it first. */
  method FindAndMove(yy: array<nat>, c: nat, ghost n: nat) returns (j: nat)
    requires n <= yy.Length && c in yy[..n]
    modifies yy
    ensures j == IndexOf(old(yy[..n]), c) && j < n
    ensures yy[..n] == Front(old(yy[..n]), j)
    ensures forall k :: n <= k < yy.Length ==> yy[k] == old(yy[k])
  {
    ghost var y := yy[..n];
    ghost var want := IndexOf(y, c);
    var tmp := yy[0];
    j := 0;
    while c != tmp
      invariant j <= want < n && tmp == y[j] && c !in y[..j]
      invariant forall k :: 1 <= k <= j ==> yy[k] == y[k - 1]
      invariant forall k :: j < k < yy.Length ==> yy[k] == old(yy[k])
      decreases want - j
    {
      assert y[..j + 1] == y[..j] + [y[j]];
      j := j + 1;
      var tmp2 := tmp;
      tmp := yy[j];
      yy[j] := tmp2;
    }
    IndexUnique(y, c, j);
    yy[0] := tmp;
    assert forall k :: 0 <= k < n ==> yy[k] == Front(y, j)[k];
  }

  /** Maps each byte in use to its rank among the bytes in use. */
  method MakeMaps(inUse: seq<bool>) returns (unseqToSeq: seq<nat>, nInUse: nat)
    requires |inUse| == 256
    ensures |unseqToSeq| == 256 && nInUse == Used(inUse, 256)
    ensures forall c :: 0 <= c < 256 && inUse[c] ==> unseqToSeq[c] == Used(inUse, c)
  {
    unseqToSeq, nInUse := seq(256, i => 0), 0;
    var i := 0;
    while i < 256
      invariant 0 <= i <= 256 && |unseqToSeq| == 256 && nInUse == Used(inUse, i)
      invariant forall c :: 0 <= c < i && inUse[c] ==> unseqToSeq[c] == Used(inUse, c)
    {
      if inUse[i] {
        unseqToSeq := unseqToSeq[i := nInUse];
        nInUse := nInUse + 1;
      }
      i := i + 1;
    }
  }

  /** How many bytes below n are in use. */
  function Used(inUse: seq<bool>, n: nat): (u: nat)
    requires n <= |inUse|
    ensures u <= n
  {
    if n == 0 then 0 else Used(inUse, n - 1) + if inUse[n - 1] then 1 else 0
  }

  lemma {:induction false} UsedMonotone(inUse: seq<bool>, a: nat, b: nat)
    requires a <= b <= |inUse|
    ensures Used(inUse, a) <= Used(inUse, b)
    ensures a < b && inUse[a] ==> Used(inUse, a) < Used(inUse, b)
    decreases b
  {
    if a < b {
      UsedMonotone(inUse, a, b - 1);
    }
  }

  /** The character coded at step i: the one before the i-th rotation, as a rank. */
  function Coded(block: seq<Byte>, ptr: seq<nat>, toSeq: seq<nat>): (l: seq<nat>)
    requires |toSeq| == 256 && |ptr| == |block| && forall i :: 0 <= i < |ptr| ==> ptr[i] < |block|
    ensures |l| == |ptr|
  {
    seq(|ptr|, i requires 0 <= i < |ptr| => toSeq[block[if ptr[i] == 0 then |block| - 1 else ptr[i] - 1]])
  }

  /** Having coded i characters: wr codes are out, and those still to come complete the codes of l. */
  ghost predicate Midway(mtfv: seq<nat>, yy: seq<nat>, l: seq<nat>, i: nat, wr: nat, z: nat, n: nat) {
    && i <= |l| && wr <= |mtfv| && 0 < n <= |yy| && wr + z <= i
    && Covers(Iota(n), l) && Covers(yy[..n], l[i..])
    && mtfv[..wr] + Codes(yy[..n], l[i..], z, n + 1) == Codes(Iota(n), l, 0, n + 1)
  }

  lemma MidwayStart(mtfv: seq<nat>, yy: seq<nat>, l: seq<nat>, n: nat)
    requires 0 < n <= |yy| && yy[..n] == Iota(n) && forall i :: 0 <= i < |l| ==> l[i] < n
    ensures Midway(mtfv, yy, l, 0, 0, 0, n)
  {
    assert l[0..] == l;
    forall c | c in l ensures c in Iota(n) {
      assert Iota(n)[c] == c;
    }
    assert [] + Codes(Iota(n), l, 0, n + 1) == Codes(Iota(n), l, 0, n + 1);
  }

  lemma MidwayInside(mtfv: seq<nat>, yy: seq<nat>, l: seq<nat>, i: nat, wr: nat, z: nat, n: nat)
    requires Midway(mtfv, yy, l, i, wr, z, n) && i < |l|
    ensures wr <= |mtfv| && 0 < n <= |yy| && wr + z <= i && l[i] in yy[..n]
  {
    CoversStep(yy[..n], l[i..]);
  }

  lemma TailSplit(l: seq<nat>, i: nat)
    requires i < |l|
    ensures l[i..] != [] && l[i..][0] == l[i] && l[i..][1..] == l[i + 1..]
  {
  }

  lemma MidwaySame(mtfv: seq<nat>, yy: seq<nat>, l: seq<nat>, i: nat, wr: nat, z: nat, n: nat)
    requires Midway(mtfv, yy, l, i, wr, z, n) && i < |l| && l[i] == yy[0]
    ensures Midway(mtfv, yy, l, i + 1, wr, z + 1, n)
  {
    TailSplit(l, i);
    CoversStep(yy[..n], l[i..]);
  }

  lemma MidwayMove(mtfv: seq<nat>, yy: seq<nat>, l: seq<nat>, i: nat, wr: nat, z: nat, n: nat,
                   mtfv': seq<nat>, yy': seq<nat>, wr': nat)
    requires Midway(mtfv, yy, l, i, wr, z, n) && i < |l| && l[i] in yy[..n] && l[i] != yy[0]
    requires wr' <= |mtfv'| && |yy'| == |yy| && yy'[..n] == Front(yy[..n], IndexOf(yy[..n], l[i]))
    requires wr' == wr + |RunCode(z)| + 1 && mtfv'[..wr'] == mtfv[..wr] + RunCode(z) + [IndexOf(yy[..n], l[i]) + 1]
    ensures Midway(mtfv', yy', l, i + 1, wr', 0, n)
  {
    hide Codes, RunCode, Covers, Front;
    TailSplit(l, i);
    CoversStep(yy[..n], l[i..]);
    RunBound(z);
    var k := IndexOf(yy[..n], l[i]);
    var rest := Codes(yy'[..n], l[i + 1..], 0, n + 1);
    CodesMove(yy[..n], l[i..], z, n + 1);
    assert mtfv'[..wr'] + rest == mtfv[..wr] + (RunCode(z) + [k + 1] + rest);
  }

  lemma CodesMove(y: seq<nat>, s: seq<nat>, z: nat, eob: nat)
    requires Covers(y, s) && s != [] && s[0] in y && s[0] != y[0]
    requires Covers(Front(y, IndexOf(y, s[0])), s[1..])
    ensures Codes(y, s, z, eob)
            == RunCode(z) + [IndexOf(y, s[0]) + 1] + Codes(Front(y, IndexOf(y, s[0])), s[1..], 0, eob)
  {
    hide RunCode, Front, Covers;
  }

  lemma MidwayEnd(mtfv: seq<nat>, yy: seq<nat>, l: seq<nat>, wr: nat, z: nat, n: nat)
    requires Midway(mtfv, yy, l, |l|, wr, z, n)
    ensures Covers(Iota(n), l) && wr <= |mtfv|
    ensures mtfv[..wr] + RunCode(z) + [n + 1] == Codes(Iota(n), l, 0, n + 1)
  {
    assert l[|l|..] == [];
    assert mtfv[..wr] + RunCode(z) + [n + 1] == mtfv[..wr] + (RunCode(z) + [n + 1]);
  }

  /** Codes one character; everything it writes over has been read already. */
  method CodeOne(mtfv: array<nat>, mtfFreq: array<nat>, yy: array<nat>, ll: nat, wr0: nat, zPend0: nat,
                 ghost l: seq<nat>, ghost i: nat, ghost n: nat)
    returns (wr: nat, zPend: nat)
    requires mtfv != mtfFreq && mtfv != yy && mtfFreq != yy && n <= 256
    requires Midway(mtfv[..], yy[..], l, i, wr0, zPend0, n) && i < |l| && l[i] == ll && i < mtfv.Length
    requires Counts(mtfFreq[..], mtfv[..wr0])
    modifies mtfv, mtfFreq, yy
    ensures Midway(mtfv[..], yy[..], l, i + 1, wr, zPend, n) && wr <= mtfv.Length
    ensures Counts(mtfFreq[..], mtfv[..wr])
    ensures forall k :: i < k < mtfv.Length ==> mtfv[k] == old(mtfv[k])
  {
    ghost var m, y := mtfv[..], yy[..];
    MidwayInside(m, y, l, i, wr0, zPend0, n);
    hide Midway, Counts, RunCode, Front;
    wr, zPend := wr0, zPend0;
    if yy[0] == ll {
      MidwaySame(m, y, l, i, wr0, zPend0, n);
      zPend := zPend + 1;
      MidwayLength(mtfv[..], yy[..], l, i + 1, wr, zPend, n);
    } else {
      if zPend > 0 {
        wr := EmitRun(mtfv, mtfFreq, wr, zPend);
      }
      NoRun();
      RunBound(zPend);
      assert mtfv[..wr] == m[..wr0] + RunCode(zPend);
      var j := FindAndMove(yy, ll, n);
      Emit(mtfv, mtfFreq, wr, j + 1);
      wr := wr + 1;
      MidwayMove(m, y, l, i, wr0, zPend, n, mtfv[..], yy[..], wr);
      zPend := 0;
    }
  }

  lemma NoRun()
    ensures RunCode(0) == []
  {
  }

  lemma MidwayLength(mtfv: seq<nat>, yy: seq<nat>, l: seq<nat>, i: nat, wr: nat, z: nat, n: nat)
    requires Midway(mtfv, yy, l, i, wr, z, n)
    ensures wr <= |mtfv| && wr + z <= i
  {
  }

  /** The pending run and the end-of-block code. */
  method CodeEnd(mtfv: array<nat>, mtfFreq: array<nat>, wr0: nat, zPend: nat, eob: nat) returns (wr: nat)
    requires mtfv != mtfFreq && wr0 + zPend < mtfv.Length && eob < FREQS && Counts(mtfFreq[..], mtfv[..wr0])
    modifies mtfv, mtfFreq
    ensures wr0 < wr <= wr0 + zPend + 1 && wr <= mtfv.Length
    ensures mtfv[..wr] == old(mtfv[..wr0]) + RunCode(zPend) + [eob]
    ensures Counts(mtfFreq[..], mtfv[..wr])
  {
    hide Counts, RunCode;
    wr := wr0;
    if zPend > 0 {
      wr := EmitRun(mtfv, mtfFreq, wr, zPend);
    }
    NoRun();
    assert mtfv[..wr] == old(mtfv[..wr0]) + RunCode(zPend);
    Emit(mtfv, mtfFreq, wr, eob);
    wr := wr + 1;
  }

  lemma CodedInRange(block: seq<Byte>, ptr: seq<nat>, inUse: seq<bool>, toSeq: seq<nat>)
    requires |inUse| == 256 && |toSeq| == 256 && |ptr| == |block|
    requires forall i :: 0 <= i < |ptr| ==> ptr[i] < |block|
    requires forall i :: 0 <= i < |block| ==> inUse[block[i]]
    requires forall c :: 0 <= c < 256 && inUse[c] ==> toSeq[c] == Used(inUse, c)
    ensures forall i :: 0 <= i < |block| ==> Coded(block, ptr, toSeq)[i] < Used(inUse, 256)
  {
    forall i | 0 <= i < |block| ensures Coded(block, ptr, toSeq)[i] < Used(inUse, 256) {
      UsedMonotone(inUse, block[if ptr[i] == 0 then |block| - 1 else ptr[i] - 1], 256);
    }
  }

  lemma UnreadAfter(halves: seq<nat>, halves': seq<nat>, ptr: seq<nat>, i: nat)
    requires Unread(halves, ptr, i) && i < |ptr| && |halves'| == |halves|
    requires forall k :: i < k < |halves| ==> halves'[k] == halves[k]
    ensures Unread(halves', ptr, i + 1)
  {
  }

  /**
   * Turns the sorted pointers of the block into its codes, in the same store: at step i nothing
   * from the i-th pointer on has been overwritten.
   */
  method GenerateMtfValues(arr1: array<nat>, block: seq<Byte>, ghost ptr: seq<nat>, inUse: seq<bool>, mtfFreq: array<nat>)
    returns (nMTF: nat, nInUse: nat, ghost toSeq: seq<nat>)
    requires arr1 != mtfFreq && mtfFreq.Length == FREQS && |inUse| == 256 && 0 < |block| == |ptr|
    requires Unread(arr1[..], ptr, 0) && forall i :: 0 <= i < |ptr| ==> ptr[i] < |block|
    requires forall i :: 0 <= i < |block| ==> inUse[block[i]]
    modifies arr1, mtfFreq
    ensures nInUse == Used(inUse, 256) > 0 && |toSeq| == 256 && 0 < nMTF <= |block| + 1 && nMTF <= arr1.Length
    ensures forall c :: 0 <= c < 256 && inUse[c] ==> toSeq[c] == Used(inUse, c)
    ensures Covers(Iota(nInUse), Coded(block, ptr, toSeq))
    ensures arr1[..nMTF] == Codes(Iota(nInUse), Coded(block, ptr, toSeq), 0, nInUse + 1)
    ensures Counts(mtfFreq[..], arr1[..nMTF])
  {
    var nblock := |block|;
    var unseqToSeq;
    unseqToSeq, nInUse := MakeMaps(inUse);
    toSeq := unseqToSeq;
    CodedInRange(block, ptr, inUse, toSeq);
    UsedMonotone(inUse, block[0], 256);
    ghost var l := Coded(block, ptr, toSeq);
    var EOB := nInUse + 1;
    var yy := new nat[256](_ => 0);
    ClearCounts(mtfFreq, arr1);
    FillIota(yy, nInUse);
    hide Midway, Counts, Codes, Covers, Unread, Coded;
    MidwayStart(arr1[..], yy[..], l, nInUse);
    var wr: nat, zPend: nat, i := 0, 0, 0;
    while i < nblock
      invariant 0 <= i <= nblock && wr <= arr1.Length
      invariant Midway(arr1[..], yy[..], l, i, wr, zPend, nInUse)
      invariant Unread(arr1[..], ptr, i) && Counts(mtfFreq[..], arr1[..wr])
    {
      ghost var m := arr1[..];
      ReadAt(m, ptr, i);
      CodedAt(block, ptr, toSeq, i);
      var j := arr1[2 * i] as int + 0x1_0000 * arr1[2 * i + 1] - 1;
      if j < 0 { j := j + nblock; }
      wr, zPend := CodeOne(arr1, mtfFreq, yy, unseqToSeq[block[j]], wr, zPend, l, i, nInUse);
      UnreadAfter(m, arr1[..], ptr, i);
      i := i + 1;
    }
    MidwayEnd(arr1[..], yy[..], l, wr, zPend, nInUse);
    MidwayLength(arr1[..], yy[..], l, nblock, wr, zPend, nInUse);
    ReadSize(arr1[..], ptr, nblock);
    wr := CodeEnd(arr1, mtfFreq, wr, zPend, EOB);
    nMTF := wr;
  }

  lemma ReadSize(halves: seq<nat>, ptr: seq<nat>, i: nat)
    requires Unread(halves, ptr, i)
    ensures |halves| == 2 * |ptr|
  {
  }

  lemma ReadAt(halves: seq<nat>, ptr: seq<nat>, i: nat)
    requires Unread(halves, ptr, i) && i < |ptr|
    ensures 2 * i + 1 < |halves| && halves[2 * i] + 0x1_0000 * halves[2 * i + 1] == ptr[i]
  {
  }

  lemma CodedAt(block: seq<Byte>, ptr: seq<nat>, toSeq: seq<nat>, i: nat)
    requires |toSeq| == 256 && |ptr| == |block| && forall i :: 0 <= i < |ptr| ==> ptr[i] < |block|
    requires i < |ptr|
    ensures Coded(block, ptr, toSeq)[i] == toSeq[block[if ptr[i] == 0 then |block| - 1 else ptr[i] - 1]]
  {
  }

  method ClearCounts(mtfFreq: array<nat>, mtfv: array<nat>)
    requires mtfFreq.Length == FREQS && mtfFreq != mtfv
    modifies mtfFreq
    ensures Counts(mtfFreq[..], mtfv[..0])
  {
    var i := 0;
    while i < FREQS
      invariant i <= FREQS && forall k :: 0 <= k < i ==> mtfFreq[k] == 0
    {
      mtfFreq[i] := 0;
      i := i + 1;
    }
  }

  method FillIota(yy: array<nat>, n: nat)
    requires n <= yy.Length
    modifies yy
    ensures yy[..n] == Iota(n)
  {
    var i := 0;
    while i < n
      invariant i <= n && forall k :: 0 <= k < i ==> yy[k] == k
    {
      yy[i] := i;
      i := i + 1;
    }
  }
}

/** Canonical prefix codes: assignment, decoding tables and decoding. */
module CanonicalCodes {
  import opened Permutations
  import opened HeaderBits
  import opened RadixPass
  import opened InverseBwt
  import opened Unsort
  import opened BitStream

  const MAX_ALPHA := 258
  const MAX_CODE_LEN := 23
  const LONGEST := 20

  /** Every symbol has a length from 1 to 20, and there are at most 258 symbols. */
  ghost predicate Lengths(len: seq<Byte>) {
    0 < |len| <= MAX_ALPHA && forall i :: 0 <= i < |len| ==> 1 <= len[i] <= LONGEST
  }

  /** The first code of length n. */
  function First(len: seq<Byte>, n: nat): nat
    decreases n, 0
  {
    if n == 0 then 0 else 2 * Last(len, n - 1)
  }

  /** One past the last code of length n. */
  function Last(len: seq<Byte>, n: nat): nat
    decreases n, 1
  {
    First(len, n) + multiset(len)[n]
  }

  function Code(len: seq<Byte>, i: nat): nat
    requires i < |len|
  {
    First(len, len[i]) + multiset(len[..i])[len[i]]
  }

  /** Kraft's sum in units of 2^-top. */
  function KraftSum(len: seq<int>, top: nat): nat
    requires forall i :: 0 <= i < |len| ==> len[i] <= top
  {
    if len == [] then 0 else KraftSum(len[..|len| - 1], top) + Pow2(top - len[|len| - 1])
  }

  lemma {:induction false} LastAppend(len: seq<Byte>, x: Byte, n: nat)
    ensures Last(len + [x], n) == Last(len, n) + if x <= n then Pow2(n - x) else 0
  {
    if n > 0 {
      LastAppend(len, x, n - 1);
    }
  }

  lemma {:induction false} LastOfNothing(n: nat)
    ensures Last([], n) == 0
  {
    if n > 0 {
      LastOfNothing(n - 1);
    }
  }

  /** Kraft's sum is the number of codes of the greatest length used up by the assignment. */
  lemma {:induction false} KraftIsLast(len: seq<Byte>, top: nat)
    requires forall i :: 0 <= i < |len| ==> len[i] <= top
    ensures KraftSum(len, top) == Last(len, top)
  {
    if len == [] {
      LastOfNothing(top);
    } else {
      var t := len[..|len| - 1];
      KraftIsLast(t, top);
      assert len == t + [len[|len| - 1]];
      LastAppend(t, len[|len| - 1], top);
    }
  }

  lemma {:induction false} LastGrows(len: seq<Byte>, n: nat, k: nat)
    ensures Shl(Last(len, n), k) <= Last(len, n + k)
    ensures k > 0 ==> Shl(Last(len, n), k) <= First(len, n + k)
  {
    if k > 0 {
      LastGrows(len, n, k - 1);
    }
  }

  lemma {:induction false} ShlUnit(k: nat)
    ensures Shl(1, k) == Pow2(k)
  {
    if k > 0 {
      ShlUnit(k - 1);
    }
  }

  lemma {:induction false} ShlStrict(x: nat, y: nat, k: nat)
    requires x < y
    ensures Shl(x, k) < Shl(y, k)
  {
    if k > 0 {
      ShlStrict(x, y, k - 1);
    }
  }

  /** With Kraft's inequality the codes of every length fit. */
  lemma CodesFit(len: seq<Byte>, n: nat)
    requires Lengths(len) && KraftSum(len, LONGEST) <= Pow2(LONGEST) && n <= LONGEST
    ensures Last(len, n) <= Pow2(n)
  {
    hide Pow2, Shl, Last, First, KraftSum;
    KraftIsLast(len, LONGEST);
    LastGrows(len, n, LONGEST - n);
    if Last(len, n) > Pow2(n) {
      ShlStrict(Pow2(n), Last(len, n), LONGEST - n);
      ShlUnit(n);
      ShlShl(1, n, LONGEST - n);
      ShlUnit(LONGEST);
    }
  }

  lemma CodeBounds(len: seq<Byte>, i: nat)
    requires Lengths(len) && KraftSum(len, LONGEST) <= Pow2(LONGEST) && i < |len|
    ensures First(len, len[i]) <= Code(len, i) < Last(len, len[i]) <= Pow2(len[i])
  {
    PrefixCount(len, i, len[i]);
    CodesFit(len, len[i]);
  }

  method AssignCodes(code: array<nat>, length: seq<Byte>, minLen: nat, maxLen: nat, alphaSize: nat)
    requires alphaSize == |length| && alphaSize <= code.Length && minLen <= maxLen <= LONGEST
    requires forall i :: 0 <= i < alphaSize ==> minLen <= length[i] <= maxLen
    modifies code
    ensures forall i :: 0 <= i < alphaSize ==> code[i] == Code(length, i)
  {
    var n, vec: nat := minLen, 0;
    FirstIsZero(length, minLen);
    while n <= maxLen
      invariant minLen <= n <= maxLen + 1 && vec == First(length, n)
      invariant forall i :: 0 <= i < alphaSize && length[i] < n ==> code[i] == Code(length, i)
    {
      vec := AssignLength(code, length, n, vec, alphaSize);
      vec := vec * 2;
      n := n + 1;
    }
  }

  lemma {:induction false} FirstIsZero(len: seq<Byte>, n: nat)
    requires forall i :: 0 <= i < |len| ==> n <= len[i]
    ensures First(len, n) == 0
  {
    if n > 0 {
      FirstIsZero(len, n - 1);
    }
  }

  /** Numbers the symbols of length n upwards from vec. */
  method AssignLength(code: array<nat>, length: seq<Byte>, n: nat, vec0: nat, alphaSize: nat) returns (vec: nat)
    requires alphaSize == |length| && alphaSize <= code.Length
    requires vec0 == First(length, n)
    modifies code
    ensures vec == Last(length, n)
    ensures forall i :: 0 <= i < alphaSize && length[i] == n ==> code[i] == Code(length, i)
    ensures forall i :: 0 <= i < alphaSize && length[i] != n ==> code[i] == old(code[i])
  {
    hide First, Last;
    LastCounts(length, n);
    var i := 0;
    vec := vec0;
    while i < alphaSize
      invariant i <= alphaSize && vec == vec0 + multiset(length[..i])[n]
      invariant forall k :: 0 <= k < i && length[k] == n ==> code[k] == Code(length, k)
      invariant forall k :: 0 <= k < alphaSize && (length[k] != n || k >= i) ==> code[k] == old(code[k])
    {
      CountNext(length, i, n);
      if length[i] == n {
        code[i] := vec;
        vec := vec + 1;
      }
      i := i + 1;
    }
    assert length[..alphaSize] == length;
  }

  lemma LastCounts(len: seq<Byte>, n: nat)
    ensures Last(len, n) == First(len, n) + multiset(len)[n]
  {
  }

  lemma CountNext(len: seq<Byte>, i: nat, n: nat)
    requires i < |len|
    ensures multiset(len[..i + 1])[n] == multiset(len[..i])[n] + if len[i] == n then 1 else 0
  {
    assert len[..i + 1] == len[..i] + [len[i]];
  }

  // ---- Decoding ----

  datatype Fetch = Symbol(sym: nat, rest: Bits) | Starved | Corrupt

  ghost predicate Tables(limit: seq<int>, base: seq<int>, perm: seq<nat>) {
    |limit| == MAX_ALPHA && |base| == MAX_ALPHA && |perm| == MAX_ALPHA
  }

  /** Reading one symbol bit by bit, having zn bits with value zvec so far. */
  function Scan(limit: seq<int>, base: seq<int>, perm: seq<nat>, zn: nat, zvec: nat, bits: Bits): Fetch
    requires |limit| == MAX_ALPHA && |base| == MAX_ALPHA && |perm| == MAX_ALPHA
    decreases |bits|
  {
    if zn > LONGEST then Corrupt
    else if zvec <= limit[zn] then
      var k := zvec - base[zn];
      if k < 0 || k >= MAX_ALPHA then Corrupt else Symbol(perm[k], bits)
    else if bits == [] then Starved
    else Scan(limit, base, perm, zn + 1, 2 * zvec + if bits[0] then 1 else 0, bits[1..])
  }

  function FetchSymbol(limit: seq<int>, base: seq<int>, perm: seq<nat>, minLen: nat, bits: Bits): Fetch
    requires |limit| == MAX_ALPHA && |base| == MAX_ALPHA && |perm| == MAX_ALPHA
  {
    if |bits| < minLen then Starved
    else Scan(limit, base, perm, minLen, ValueOf(bits[..minLen]), bits[minLen..])
  }

  /** What the decoding tables of a length vector hold. */
  ghost predicate TablesFor(len: seq<Byte>, minLen: nat, limit: seq<int>, base: seq<int>, perm: seq<nat>) {
    && Tables(limit, base, perm) && 0 < |len| <= MAX_ALPHA
    && (forall i :: 0 <= i < |len| ==> minLen <= len[i] <= LONGEST)
    && (forall i :: 0 <= i < |len| ==> StableRank(len, i) < MAX_ALPHA && perm[StableRank(len, i)] == i)
    && (forall i :: 0 <= i < |len| ==> base[len[i]] == First(len, len[i]) - Below(len, len[i]))
    && (forall i, n :: 0 <= i < |len| && minLen <= n <= len[i] ==> limit[n] == Last(len, n) - 1)
  }

  lemma {:induction false} ShrOfCode(len: seq<Byte>, c: nat, n: nat, k: nat)
    requires k > 0 && c >= First(len, n + k)
    ensures Shr(c, k) >= Last(len, n)
    decreases k
  {
    if k > 1 {
      assert First(len, n + k) == 2 * Last(len, n + k - 1);
      assert c / 2 >= First(len, n + (k - 1));
      ShrOfCode(len, c / 2, n, k - 1);
    }
  }

  /** A proper prefix of a code word lies above all codes of its own length. */
  lemma PrefixIsBeyond(len: seq<Byte>, i: nat, zn: nat)
    requires Lengths(len) && KraftSum(len, LONGEST) <= Pow2(LONGEST) && i < |len| && zn < len[i]
    ensures ValueOf(BitsOf(Code(len, i), len[i])[..zn]) >= Last(len, zn)
  {
    var c, k: nat := Code(len, i), len[i] - zn;
    hide Code, BitsOf, Shr, ValueOf, Pow2, First, Last;
    CodeBounds(len, i);
    BitsOfShr(c, zn, k);
    Pow2Positive(zn);
    ShrBound(c, zn, k);
    ValueOfBits(Shr(c, k), zn);
    ShrOfCode(len, c, zn, k);
  }

  lemma OneBitOn(word: Bits, zn: nat, rest: Bits)
    requires zn < |word|
    ensures word[zn..] + rest == [word[zn]] + (word[zn + 1..] + rest)
    ensures (word[zn..] + rest)[1..] == word[zn + 1..] + rest
    ensures ValueOf(word[..zn + 1]) == 2 * ValueOf(word[..zn]) + if word[zn] then 1 else 0
  {
    assert word[..zn + 1][..zn] == word[..zn];
  }

  lemma ScanStops(len: seq<Byte>, minLen: nat, limit: seq<int>, base: seq<int>, perm: seq<nat>, i: nat, rest: Bits)
    requires TablesFor(len, minLen, limit, base, perm) && Lengths(len)
    requires KraftSum(len, LONGEST) <= Pow2(LONGEST) && i < |len|
    ensures var l, word := len[i] as nat, BitsOf(Code(len, i), len[i]);
            Scan(limit, base, perm, l, ValueOf(word[..l]), word[l..] + rest) == Symbol(i, rest)
  {
    var c, l := Code(len, i), len[i] as nat;
    CodeBounds(len, i);
    ValueOfBits(c, l);
    var word := BitsOf(c, l);
    assert word[..l] == word && word[l..] + rest == rest;
    assert c - base[l] == StableRank(len, i);
  }

  lemma TableShape(len: seq<Byte>, minLen: nat, limit: seq<int>, base: seq<int>, perm: seq<nat>, i: nat)
    requires TablesFor(len, minLen, limit, base, perm) && i < |len|
    ensures Tables(limit, base, perm) && minLen <= len[i] <= LONGEST
    ensures forall n :: minLen <= n <= len[i] ==> limit[n] == Last(len, n) - 1
  {
  }

  /** From any prefix of a code word, scanning on ends at the code word's symbol. */
  lemma {:induction false} ScanFinds(len: seq<Byte>, minLen: nat, limit: seq<int>, base: seq<int>, perm: seq<nat>,
                                     i: nat, zn: nat, rest: Bits)
    requires TablesFor(len, minLen, limit, base, perm) && Lengths(len)
    requires KraftSum(len, LONGEST) <= Pow2(LONGEST) && i < |len| && minLen <= zn <= len[i]
    ensures var word := BitsOf(Code(len, i), len[i]);
            Scan(limit, base, perm, zn, ValueOf(word[..zn]), word[zn..] + rest) == Symbol(i, rest)
    decreases len[i] - zn
  {
    hide TablesFor, Code, BitsOf, ValueOf, KraftSum, Lengths, First, Last;
    TableShape(len, minLen, limit, base, perm, i);
    var l := len[i] as nat;
    var word := BitsOf(Code(len, i), l);
    if zn == l {
      ScanStops(len, minLen, limit, base, perm, i, rest);
    } else {
      PrefixIsBeyond(len, i, zn);
      OneBitOn(word, zn, rest);
      ScanFinds(len, minLen, limit, base, perm, i, zn + 1, rest);
    }
  }

  /** A code word decodes to its symbol, whatever follows it. */
  lemma FetchFinds(len: seq<Byte>, minLen: nat, limit: seq<int>, base: seq<int>, perm: seq<nat>, i: nat, rest: Bits)
    requires TablesFor(len, minLen, limit, base, perm) && Lengths(len)
    requires KraftSum(len, LONGEST) <= Pow2(LONGEST) && i < |len|
    ensures FetchSymbol(limit, base, perm, minLen, BitsOf(Code(len, i), len[i]) + rest) == Symbol(i, rest)
  {
    hide TablesFor, Code, BitsOf, Scan, ValueOf, KraftSum, Lengths;
    TableShape(len, minLen, limit, base, perm, i);
    var word := BitsOf(Code(len, i), len[i]);
    ScanFinds(len, minLen, limit, base, perm, i, minLen, rest);
    assert (word + rest)[..minLen] == word[..minLen];
    assert (word + rest)[minLen..] == word[minLen..] + rest;
  }

  /** No code word is the beginning of another, and all fit their lengths. */
  lemma PrefixFree(len: seq<Byte>, i: nat, j: nat)
    requires Lengths(len) && KraftSum(len, LONGEST) <= Pow2(LONGEST) && i < |len| && j < |len|
    ensures Code(len, i) < Pow2(len[i])
    ensures BitsOf(Code(len, i), len[i]) <= BitsOf(Code(len, j), len[j]) ==> i == j
  {
    hide Code, BitsOf, ValueOf, Pow2, First, Last, KraftSum, Lengths;
    CodeBounds(len, i);
    CodeBounds(len, j);
    var wi, wj := BitsOf(Code(len, i), len[i]), BitsOf(Code(len, j), len[j]);
    if wi <= wj {
      ValueOfBits(Code(len, i), len[i]);
      ValueOfBits(Code(len, j), len[j]);
      assert wi == wj[..len[i]];
      if len[i] < len[j] {
        PrefixIsBeyond(len, j, len[i]);
      } else {
        assert wi == wj;
        SameLengthCodes(len, i, j);
      }
    }
  }

  lemma SameLengthCodes(len: seq<Byte>, i: nat, j: nat)
    requires i < |len| && j < |len| && len[i] == len[j] && Code(len, i) == Code(len, j)
    ensures i == j
  {
    if i < j {
      StableRankInjective(len, i, j);
    } else if j < i {
      StableRankInjective(len, j, i);
    }
  }

  // ---- Building the tables ----

  /** The symbols of length below n, and those of length n before j, are in place. */
  ghost predicate PermTo(len: seq<Byte>, perm: seq<nat>, n: nat, j: nat) {
    && |len| <= |perm| == MAX_ALPHA && j <= |len|
    && forall k :: 0 <= k < |len| && (len[k] < n || (len[k] == n && k < j)) ==>
         StableRank(len, k) < |len| && perm[StableRank(len, k)] == k
  }

  lemma PermStep(len: seq<Byte>, perm: seq<nat>, n: nat, j: nat)
    requires PermTo(len, perm, n, j) && j < |len|
    ensures StableRank(len, j) < |len|
    ensures PermTo(len, if len[j] == n then perm[StableRank(len, j) := j] else perm, n, j + 1)
  {
    StableRankBound(len, j);
    forall k | 0 <= k < |len| && k != j ensures StableRank(len, k) != StableRank(len, j) {
      if k < j {
        StableRankInjective(len, k, j);
      } else {
        StableRankInjective(len, j, k);
      }
    }
    hide StableRank;
  }

  lemma PermNextLength(len: seq<Byte>, perm: seq<nat>, n: nat)
    requires PermTo(len, perm, n, |len|)
    ensures PermTo(len, perm, n + 1, 0)
  {
  }

  lemma PermStarts(len: seq<Byte>, perm: seq<nat>, n: nat)
    requires |len| <= |perm| == MAX_ALPHA && forall k :: 0 <= k < |len| ==> n <= len[k]
    ensures PermTo(len, perm, n, 0)
  {
  }

  method PermOfLength(perm: array<nat>, length: seq<Byte>, n: nat, pp0: nat, alphaSize: nat) returns (pp: nat)
    requires alphaSize == |length| && alphaSize <= perm.Length && n < 256
    requires pp0 == Below(length, n) && PermTo(length, perm[..], n, 0)
    modifies perm
    ensures PermTo(length, perm[..], n, alphaSize) && pp == Below(length, n + 1)
  {
    hide PermTo;
    var j := 0;
    pp := pp0;
    while j < alphaSize
      invariant j <= alphaSize && pp == Below(length, n) + multiset(length[..j])[n]
      invariant PermTo(length, perm[..], n, j)
    {
      PermStep(length, perm[..], n, j);
      assert length[..j + 1] == length[..j] + [length[j]];
      if length[j] == n {
        perm[pp] := j;
        pp := pp + 1;
      }
      j := j + 1;
    }
    assert length[..alphaSize] == length;
  }

  method BuildPerm(perm: array<nat>, length: seq<Byte>, minLen: nat, maxLen: nat, alphaSize: nat)
    requires alphaSize == |length| && alphaSize <= perm.Length == MAX_ALPHA
    requires minLen <= maxLen <= LONGEST
    requires forall i :: 0 <= i < alphaSize ==> minLen <= length[i] <= maxLen
    modifies perm
    ensures PermTo(length, perm[..], maxLen + 1, 0)
  {
    hide PermTo, Below;
    NoneBelow(length, minLen);
    PermStarts(length, perm[..], minLen);
    var pp: nat, i := 0, minLen;
    while i <= maxLen
      invariant minLen <= i <= maxLen + 1 && pp == Below(length, i) && PermTo(length, perm[..], i, 0)
    {
      pp := PermOfLength(perm, length, i, pp, alphaSize);
      PermNextLength(length, perm[..], i);
      i := i + 1;
    }
  }

  lemma {:induction false} NoneBelow(len: seq<Byte>, n: nat)
    requires forall i :: 0 <= i < |len| ==> n <= len[i]
    ensures Below(len, n) == 0
  {
    if n > 0 {
      NoneBelow(len, n - 1);
    }
  }

  /** How many symbols have length n. */
  function CountOf(len: seq<Byte>, n: nat): nat {
    multiset(len)[n]
  }

  /** base[n] counts the symbols of length below n. */
  ghost predicate CountsBelow(len: seq<Byte>, base: seq<int>, n: nat) {
    n <= MAX_CODE_LEN <= |base| && forall i :: 0 <= i < n ==> base[i] == Below(len, i)
  }

  method CountLengths(base: array<int>, length: seq<Byte>, alphaSize: nat)
    requires alphaSize == |length| && base.Length == MAX_ALPHA
    requires forall i :: 0 <= i < alphaSize ==> 1 <= length[i] <= LONGEST
    modifies base
    ensures base[0] == 0 && forall n: nat :: n + 1 < MAX_CODE_LEN ==> base[n + 1] == CountOf(length, n)
  {
    var i := 0;
    while i < MAX_CODE_LEN
      invariant i <= MAX_CODE_LEN && forall k :: 0 <= k < i ==> base[k] == 0
    {
      base[i] := 0;
      i := i + 1;
    }
    i := 0;
    while i < alphaSize
      invariant i <= alphaSize && base[0] == 0
      invariant forall m: nat :: 1 <= m < MAX_CODE_LEN ==> base[m] == CountOf(length[..i], m - 1)
    {
      assert length[..i + 1] == length[..i] + [length[i]];
      var l: nat := length[i];
      base[l + 1] := base[l + 1] + 1;
      i := i + 1;
    }
    assert length[..alphaSize] == length;
  }

  method BuildCounts(base: array<int>, length: seq<Byte>, alphaSize: nat)
    requires alphaSize == |length| && base.Length == MAX_ALPHA
    requires forall i :: 0 <= i < alphaSize ==> 1 <= length[i] <= LONGEST
    modifies base
    ensures CountsBelow(length, base[..], MAX_CODE_LEN)
  {
    CountLengths(base, length, alphaSize);
    var i := 1;
    while i < MAX_CODE_LEN
      invariant 1 <= i <= MAX_CODE_LEN && CountsBelow(length, base[..], i)
      invariant forall m: nat :: i <= m < MAX_CODE_LEN ==> base[m] == CountOf(length, m - 1)
    {
      base[i] := base[i] + base[i - 1];
      i := i + 1;
    }
  }

  ghost predicate Limits(len: seq<Byte>, limit: seq<int>, minLen: nat, n: nat) {
    |limit| == MAX_ALPHA && n <= MAX_ALPHA && forall i :: minLen <= i < n ==> limit[i] == Last(len, i) - 1
  }

  method BuildLimit(limit: array<int>, base: array<int>, minLen: nat, maxLen: nat, ghost len: seq<Byte>)
    requires limit != base && limit.Length == MAX_ALPHA && minLen <= maxLen <= LONGEST
    requires CountsBelow(len, base[..], MAX_CODE_LEN)
    requires forall i :: 0 <= i < |len| ==> minLen <= len[i]
    modifies limit
    ensures Limits(len, limit[..], minLen, maxLen + 1)
    ensures forall n :: maxLen < n < MAX_CODE_LEN ==> limit[n] == 0
  {
    var i := 0;
    while i < MAX_CODE_LEN
      invariant i <= MAX_CODE_LEN && forall n :: 0 <= n < i ==> limit[n] == 0
    {
      limit[i] := 0;
      i := i + 1;
    }
    FirstIsZero(len, minLen);
    var vec: int := 0;
    i := minLen;
    while i <= maxLen
      invariant minLen <= i <= maxLen + 1 && vec == First(len, i) && Limits(len, limit[..], minLen, i)
      invariant forall n :: i <= n < MAX_CODE_LEN ==> limit[n] == 0
    {
      assert Below(len, i + 1) == Below(len, i) + multiset(len)[i];
      vec := vec + (base[i + 1] - base[i]);
      limit[i] := vec - 1;
      vec := vec * 2;
      i := i + 1;
    }
  }

  method AdjustBase(base: array<int>, limit: array<int>, minLen: nat, maxLen: nat, ghost len: seq<Byte>)
    requires limit != base && minLen <= maxLen <= LONGEST && base.Length == MAX_ALPHA
    requires CountsBelow(len, base[..], MAX_CODE_LEN) && Limits(len, limit[..], minLen, maxLen + 1)
    requires forall i :: 0 <= i < |len| ==> minLen <= len[i]
    modifies base
    ensures forall n :: minLen <= n <= maxLen ==> base[n] == First(len, n) - Below(len, n)
    ensures forall n :: maxLen < n < MAX_CODE_LEN ==> base[n] == Below(len, n)
  {
    FirstIsZero(len, minLen);
    NoneBelow(len, minLen);
    hide Last, Below;
    var i := minLen + 1;
    while i <= maxLen
      invariant minLen + 1 <= i <= maxLen + 1
      invariant forall n :: minLen <= n < i ==> base[n] == First(len, n) - Below(len, n)
      invariant forall n :: i <= n < MAX_CODE_LEN ==> base[n] == Below(len, n)
    {
      assert First(len, i) == 2 * Last(len, i - 1);
      base[i] := (limit[i - 1] + 1) * 2 - base[i];
      i := i + 1;
    }
  }

  /** However the tables are used, no index leaves the alphabet. */
  ghost predicate Confined(limit: seq<int>, base: seq<int>, perm: seq<nat>, minLen: nat, alphaSize: nat) {
    && Tables(limit, base, perm) && 1 <= minLen <= LONGEST && alphaSize <= MAX_ALPHA
    && (forall n :: minLen <= n <= LONGEST ==> limit[n] - base[n] < alphaSize)
    && forall r :: 0 <= r < alphaSize ==> perm[r] < alphaSize
  }

  /** For any tables made from lengths, and any bits, what is fetched is in the alphabet and uses up bits. */
  lemma {:induction false} ScanConfined(limit: seq<int>, base: seq<int>, perm: seq<nat>, minLen: nat, alphaSize: nat,
                                        zn: nat, zvec: nat, bits: Bits)
    requires Confined(limit, base, perm, minLen, alphaSize) && minLen <= zn
    ensures var f := Scan(limit, base, perm, zn, zvec, bits);
            f.Symbol? ==> f.sym < alphaSize && |f.rest| <= |bits|
    decreases |bits|
  {
    if zn <= LONGEST && zvec > limit[zn] && bits != [] {
      ScanConfined(limit, base, perm, minLen, alphaSize, zn + 1, 2 * zvec + if bits[0] then 1 else 0, bits[1..]);
    }
  }

  lemma FetchConfined(limit: seq<int>, base: seq<int>, perm: seq<nat>, minLen: nat, alphaSize: nat, bits: Bits)
    requires Confined(limit, base, perm, minLen, alphaSize)
    ensures var f := FetchSymbol(limit, base, perm, minLen, bits);
            f.Symbol? ==> f.sym < alphaSize && |f.rest| < |bits|
  {
    if |bits| >= minLen {
      ScanConfined(limit, base, perm, minLen, alphaSize, minLen, ValueOf(bits[..minLen]), bits[minLen..]);
    }
  }

  lemma PermConfined(len: seq<Byte>, perm: seq<nat>, n: nat)
    requires PermTo(len, perm, n, 0) && forall i :: 0 <= i < |len| ==> len[i] < n
    ensures forall r :: 0 <= r < |len| ==> perm[r] < |len|
  {
    var ranks := seq(|len|, k requires 0 <= k < |len| => StableRank(len, k));
    hide StableRank;
    forall i | 0 <= i < |len| ensures ranks[i] < |len| {
      StableRankBound(len, i);
    }
    forall i, k | 0 <= i < k < |len| ensures ranks[i] != ranks[k] {
      StableRankInjective(len, i, k);
    }
    DistinctIsPermutation(ranks, |len|);
    forall r | 0 <= r < |len| ensures perm[r] < |len| {
      var i := PermutationHits(ranks, |len|, r);
      assert perm[StableRank(len, i)] == i;
    }
  }

  lemma {:induction false} BelowBound(len: seq<Byte>, n: nat)
    ensures Below(len, n) <= |len|
    ensures (forall i :: 0 <= i < |len| ==> len[i] < n) ==> Below(len, n) == |len|
  {
    if len == [] {
      BelowEmpty(n);
    } else {
      var t := len[..|len| - 1];
      BelowBound(t, n);
      assert len == t + [len[|len| - 1]];
      BelowAdd(t, len[|len| - 1], n);
    }
  }

  lemma LimitGap(len: seq<Byte>, n: nat)
    requires n < 256
    ensures Last(len, n) - First(len, n) + Below(len, n) <= |len|
  {
    hide First;
    BelowBound(len, n + 1);
  }

  lemma TablesConfined(len: seq<Byte>, minLen: nat, maxLen: nat, limit: seq<int>, base: seq<int>, perm: seq<nat>)
    requires Tables(limit, base, perm) && 1 <= minLen <= maxLen <= LONGEST && |len| <= MAX_ALPHA
    requires forall i :: 0 <= i < |len| ==> minLen <= len[i] <= maxLen
    requires PermTo(len, perm, maxLen + 1, 0) && Limits(len, limit, minLen, maxLen + 1)
    requires forall n :: maxLen < n < MAX_CODE_LEN ==> limit[n] == 0
    requires forall n :: minLen <= n <= maxLen ==> base[n] == First(len, n) - Below(len, n)
    requires forall n :: maxLen < n < MAX_CODE_LEN ==> base[n] == Below(len, n)
    requires |len| > 0
    ensures Confined(limit, base, perm, minLen, |len|)
  {
    hide First, Last, Below, PermTo;
    PermConfined(len, perm, maxLen + 1);
    forall n | minLen <= n <= LONGEST ensures limit[n] - base[n] < |len| {
      if n <= maxLen {
        LimitGap(len, n);
        assert limit[n] == Last(len, n) - 1;
      } else {
        BelowBound(len, n);
      }
    }
  }

  method CreateDecodeTables(limit: array<int>, base: array<int>, perm: array<nat>, length: seq<Byte>,
                            minLen: nat, maxLen: nat, alphaSize: nat)
    requires limit != base && limit.Length == base.Length == perm.Length == MAX_ALPHA
    requires 0 < alphaSize == |length| <= MAX_ALPHA && 1 <= minLen <= maxLen <= LONGEST
    requires (forall i :: 0 <= i < alphaSize ==> minLen <= length[i] <= maxLen) && minLen in length && maxLen in length
    modifies limit, base, perm
    ensures Made(length, minLen, limit[..], base[..], perm[..])
    ensures TablesFor(length, minLen, limit[..], base[..], perm[..])
    ensures Confined(limit[..], base[..], perm[..], minLen, alphaSize)
  {
    hide StableRank, First, Last, Below;
    LongestIs(length, maxLen);
    BuildPerm(perm, length, minLen, maxLen, alphaSize);
    BuildCounts(base, length, alphaSize);
    BuildLimit(limit, base, minLen, maxLen, length);
    AdjustBase(base, limit, minLen, maxLen, length);
    TablesConfined(length, minLen, maxLen, limit[..], base[..], perm[..]);
  }

  // ---- Symbols depend on the lengths only ----

  /** What the tables made from a length vector hold wherever it matters; elsewhere they may hold anything. */
  ghost predicate Made(len: seq<Byte>, minLen: nat, limit: seq<int>, base: seq<int>, perm: seq<nat>) {
    && Tables(limit, base, perm) && 0 < |len| <= MAX_ALPHA && 1 <= minLen <= Longest(len) <= LONGEST
    && (forall i :: 0 <= i < |len| ==> minLen <= len[i]) && minLen in len
    && PermTo(len, perm, Longest(len) + 1, 0) && Limits(len, limit, minLen, Longest(len) + 1)
    && (forall n :: Longest(len) < n < MAX_CODE_LEN ==> limit[n] == 0)
    && (forall n :: minLen <= n <= Longest(len) ==> base[n] == First(len, n) - Below(len, n))
  }

  lemma MadeTables(len: seq<Byte>, minLen: nat, limit: seq<int>, base: seq<int>, perm: seq<nat>)
    requires Made(len, minLen, limit, base, perm)
    ensures TablesFor(len, minLen, limit, base, perm)
  {
    hide First, Last, Below, StableRank;
  }

  /** The greatest length. */
  function Longest(len: seq<Byte>): (n: nat)
    ensures forall i :: 0 <= i < |len| ==> len[i] <= n
  {
    if len == [] then 0
    else
      var m := Longest(len[..|len| - 1]);
      if len[|len| - 1] > m then len[|len| - 1] else m
  }

  lemma LongestIs(len: seq<Byte>, maxLen: nat)
    requires maxLen in len && forall i :: 0 <= i < |len| ==> len[i] <= maxLen
    ensures Longest(len) == maxLen
  {
    LongestThere(len);
  }

  /** The two tables agree as long as codes can go on, and beyond the longest neither accepts anything. */
  lemma {:induction false} ScanSame(len: seq<Byte>, minLen: nat, limit: seq<int>, base: seq<int>, perm: seq<nat>,
                                    limit': seq<int>, base': seq<int>, perm': seq<nat>, zn: nat, zvec: nat, bits: Bits)
    requires Made(len, minLen, limit, base, perm) && Made(len, minLen, limit', base', perm') && minLen <= zn
    requires if zn <= Longest(len) then zvec >= First(len, zn) else zvec > 0
    ensures Scan(limit, base, perm, zn, zvec, bits) == Scan(limit', base', perm', zn, zvec, bits)
    decreases |bits|
  {
    hide First, Last, Below, Scan, PermTo, Limits;
    ScanOne(limit, base, perm, zn, zvec, bits);
    ScanOne(limit', base', perm', zn, zvec, bits);
    if zn <= Longest(len) {
      LimitAt(len, minLen, limit, zn);
      LimitAt(len, minLen, limit', zn);
      if zvec <= limit[zn] {
        RankHeld(len, perm, perm', zn, zvec);
      } else if bits != [] {
        NextFirst(len, zn, zvec);
        ScanSame(len, minLen, limit, base, perm, limit', base', perm', zn + 1, 2 * zvec + if bits[0] then 1 else 0, bits[1..]);
      }
    } else if zn <= LONGEST && bits != [] {
      ScanSame(len, minLen, limit, base, perm, limit', base', perm', zn + 1, 2 * zvec + if bits[0] then 1 else 0, bits[1..]);
    }
  }

  /** One turn of the loop. */
  lemma ScanOne(limit: seq<int>, base: seq<int>, perm: seq<nat>, zn: nat, zvec: nat, bits: Bits)
    requires Tables(limit, base, perm)
    ensures zn > LONGEST ==> Scan(limit, base, perm, zn, zvec, bits) == Corrupt
    ensures zn <= LONGEST && zvec <= limit[zn] ==>
              var k := zvec - base[zn];
              Scan(limit, base, perm, zn, zvec, bits) == if k < 0 || k >= MAX_ALPHA then Corrupt else Symbol(perm[k], bits)
    ensures zn <= LONGEST && zvec > limit[zn] && bits == [] ==> Scan(limit, base, perm, zn, zvec, bits) == Starved
    ensures zn <= LONGEST && zvec > limit[zn] && bits != [] ==>
              Scan(limit, base, perm, zn, zvec, bits)
              == Scan(limit, base, perm, zn + 1, 2 * zvec + if bits[0] then 1 else 0, bits[1..])
  {
  }

  lemma LimitAt(len: seq<Byte>, minLen: nat, limit: seq<int>, n: nat)
    requires Limits(len, limit, minLen, Longest(len) + 1) && minLen <= n <= Longest(len)
    ensures |limit| == MAX_ALPHA && limit[n] == Last(len, n) - 1
  {
  }

  lemma RankHeld(len: seq<Byte>, perm: seq<nat>, perm': seq<nat>, n: nat, zvec: nat)
    requires PermTo(len, perm, Longest(len) + 1, 0) && PermTo(len, perm', Longest(len) + 1, 0) && n <= LONGEST
    requires First(len, n) <= zvec < Last(len, n)
    ensures var k := zvec - (First(len, n) - Below(len, n)); 0 <= k < |len| <= MAX_ALPHA && perm[k] == perm'[k]
  {
    hide First, Below, StableRank;
    var k := zvec - (First(len, n) - Below(len, n));
    LimitGap(len, n);
    var ranks := seq(|len|, i requires 0 <= i < |len| => StableRank(len, i));
    forall i | 0 <= i < |len| ensures ranks[i] < |len| {
      StableRankBound(len, i);
    }
    forall i, j | 0 <= i < j < |len| ensures ranks[i] != ranks[j] {
      StableRankInjective(len, i, j);
    }
    DistinctIsPermutation(ranks, |len|);
    var i := PermutationHits(ranks, |len|, k);
    assert perm[StableRank(len, i)] == i && perm'[StableRank(len, i)] == i;
  }

  lemma NextFirst(len: seq<Byte>, n: nat, zvec: nat)
    requires n <= Longest(len) && zvec > Last(len, n) - 1 && len != []
    ensures 2 * zvec >= First(len, n + 1)
    ensures n == Longest(len) ==> 2 * zvec > 0
  {
    assert First(len, n + 1) == 2 * Last(len, n);
    if n == Longest(len) {
      LongestThere(len);
      assert multiset(len)[n] > 0;
    }
  }

  lemma {:induction false} LongestThere(len: seq<Byte>)
    requires len != []
    ensures Longest(len) in len
  {
    var t := len[..|len| - 1];
    if t != [] {
      LongestThere(t);
    }
  }

  /** Whatever else the tables hold, the bits give the same symbol. */
  lemma FetchSame(len: seq<Byte>, minLen: nat, limit: seq<int>, base: seq<int>, perm: seq<nat>,
                  limit': seq<int>, base': seq<int>, perm': seq<nat>, bits: Bits)
    requires Made(len, minLen, limit, base, perm) && Made(len, minLen, limit', base', perm')
    ensures FetchSymbol(limit, base, perm, minLen, bits) == FetchSymbol(limit', base', perm', minLen, bits)
  {
    FirstIsZero(len, minLen);
    if |bits| >= minLen {
      ScanSame(len, minLen, limit, base, perm, limit', base', perm', minLen, ValueOf(bits[..minLen]), bits[minLen..]);
    }
  }

  datatype Status = Found | NoInput | Bad
}

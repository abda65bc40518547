/** The fields of a compressed block as they stand in the bit stream, written and read. */
module BlockFormat {
  import opened Permutations
  import opened HeaderBits
  import opened BitStream
  import opened MoveToFront

  const N_GROUPS := 6
  const MAX_SELECTORS := 18002

  /** What reading a field off the front of the bits comes to. */
  datatype Parsed<T> = Got(value: T, rest: Bits) | Short | Invalid {
    predicate IsFailure() {
      !Got?
    }

    function PropagateFailure<U>(): Parsed<U>
      requires IsFailure()
    {
      if Short? then Parsed<U>.Short else Parsed<U>.Invalid
    }

    function Extract(): (T, Bits)
      requires !IsFailure()
    {
      (value, rest)
    }
  }

  function Prefixed<T>(p: seq<T>, r: Parsed<seq<T>>): Parsed<seq<T>> {
    match r
    case Got(s, rest) => Got(p + s, rest)
    case Short => Short
    case Invalid => Invalid
  }

  lemma PrefixedTwice<T>(p: seq<T>, q: seq<T>, r: Parsed<seq<T>>)
    ensures Prefixed(p, Prefixed(q, r)) == Prefixed(p + q, r)
    ensures Prefixed([], r) == r
  {
    match r
    case Got(s, rest) =>
      assert p + (q + s) == p + q + s;
      assert [] + s == s;
    case _ =>
  }

  function ParseNumber(n: nat, bits: Bits): (r: Parsed<nat>)
    ensures r.Got? ==> |r.rest| == |bits| - n
  {
    if |bits| < n then Short else Got(ValueOf(bits[..n]), bits[n..])
  }

  lemma NumberRoundTrip(n: nat, v: nat, rest: Bits)
    requires v < Pow2(n)
    ensures ParseNumber(n, BitsOf(v, n) + rest) == Got(v, rest)
  {
    ValueOfBits(v, n);
    assert (BitsOf(v, n) + rest)[..n] == BitsOf(v, n);
    assert (BitsOf(v, n) + rest)[n..] == rest;
  }

  // ---- The bytes in use: 16 summary bits, then 16 bits for each summary bit set ----

  function Row(inUse: seq<bool>, i: nat): (r: seq<bool>)
    requires |inUse| == 256 && i < 16
    ensures |r| == 16
  {
    inUse[16 * i..16 * i + 16]
  }

  /** Which rows have a byte in use. */
  function Summary(inUse: seq<bool>): (r: seq<bool>)
    requires |inUse| == 256
    ensures |r| == 16
  {
    seq(16, i requires 0 <= i < 16 => true in Row(inUse, i))
  }

  function RowBits(inUse: seq<bool>, i: nat): Bits
    requires |inUse| == 256 && i <= 16
    decreases 16 - i
  {
    if i == 16 then []
    else (if true in Row(inUse, i) then Row(inUse, i) else []) + RowBits(inUse, i + 1)
  }

  function MapBits(inUse: seq<bool>): Bits
    requires |inUse| == 256
  {
    Summary(inUse) + RowBits(inUse, 0)
  }

  function NoneUsed(n: nat): (r: seq<bool>)
    ensures |r| == n
  {
    seq(n, i => false)
  }

  function ParseRows(used16: seq<bool>, i: nat, bits: Bits): (r: Parsed<seq<bool>>)
    requires |used16| == 16 && i <= 16
    ensures r.Got? ==> |r.value| == 16 * (16 - i) && |r.rest| <= |bits|
    decreases 16 - i
  {
    if i == 16 then Got([], bits)
    else if !used16[i] then Prefixed(NoneUsed(16), ParseRows(used16, i + 1, bits))
    else if |bits| < 16 then Short
    else Prefixed(bits[..16], ParseRows(used16, i + 1, bits[16..]))
  }

  function ParseMap(bits: Bits): (r: Parsed<seq<bool>>)
    ensures r.Got? ==> |r.value| == 256 && |r.rest| <= |bits|
  {
    if |bits| < 16 then Short else ParseRows(bits[..16], 0, bits[16..])
  }

  lemma {:induction false} RowsRoundTrip(inUse: seq<bool>, i: nat, rest: Bits)
    requires |inUse| == 256 && i <= 16
    ensures ParseRows(Summary(inUse), i, RowBits(inUse, i) + rest) == Got(inUse[16 * i..], rest)
    decreases 16 - i
  {
    if i == 16 {
      assert RowBits(inUse, i) + rest == rest && inUse[16 * i..] == [];
    } else {
      RowsRoundTrip(inUse, i + 1, rest);
      OneRow(inUse, i, rest);
    }
  }

  lemma OneRow(inUse: seq<bool>, i: nat, rest: Bits)
    requires |inUse| == 256 && i < 16
    requires ParseRows(Summary(inUse), i + 1, RowBits(inUse, i + 1) + rest) == Got(inUse[16 * (i + 1)..], rest)
    ensures ParseRows(Summary(inUse), i, RowBits(inUse, i) + rest) == Got(inUse[16 * i..], rest)
  {
    var row, more := Row(inUse, i), RowBits(inUse, i + 1) + rest;
    assert inUse[16 * i..] == row + inUse[16 * (i + 1)..];
    if true in row {
      assert RowBits(inUse, i) + rest == row + more;
      assert (row + more)[..16] == row && (row + more)[16..] == more;
    } else {
      assert RowBits(inUse, i) + rest == more;
      assert row == NoneUsed(16) by {
        assert forall k :: 0 <= k < 16 ==> row[k] == false;
      }
    }
  }

  lemma MapRoundTrip(inUse: seq<bool>, rest: Bits)
    requires |inUse| == 256
    ensures ParseMap(MapBits(inUse) + rest) == Got(inUse, rest)
  {
    var bits, more := MapBits(inUse) + rest, RowBits(inUse, 0) + rest;
    assert bits == Summary(inUse) + more;
    assert bits[..16] == Summary(inUse) && bits[16..] == more;
    RowsRoundTrip(inUse, 0, rest);
    assert inUse[16 * 0..] == inUse;
  }

  // ---- Selectors, in unary ----

  function Ones(n: nat): (b: Bits)
    ensures |b| == n
  {
    if n == 0 then [] else [true] + Ones(n - 1)
  }

  function Unary(n: nat): Bits {
    Ones(n) + [false]
  }

  /** Counts ones up to a zero, having met j already. */
  function ParseUnary(nGroups: nat, j: nat, bits: Bits): (r: Parsed<nat>)
    ensures r.Got? ==> |r.rest| < |bits| && (j < nGroups ==> r.value < nGroups)
    decreases |bits|
  {
    if bits == [] then Short
    else if !bits[0] then Got(j, bits[1..])
    else if j + 1 >= nGroups then Invalid
    else ParseUnary(nGroups, j + 1, bits[1..])
  }

  lemma {:induction false} UnaryRoundTrip(nGroups: nat, j: nat, n: nat, rest: Bits)
    requires j + n < nGroups
    ensures ParseUnary(nGroups, j, Unary(n) + rest) == Got(j + n, rest)
    decreases n
  {
    var bits := Unary(n) + rest;
    if n == 0 {
      assert bits == [false] + rest;
    } else {
      UnaryRoundTrip(nGroups, j + 1, n - 1, rest);
      assert bits == [true] + (Unary(n - 1) + rest);
      assert bits[1..] == Unary(n - 1) + rest;
    }
  }

  function SelectorBits(js: seq<nat>): Bits {
    if js == [] then [] else Unary(js[0]) + SelectorBits(js[1..])
  }

  function ParseSelectors(n: nat, nGroups: nat, bits: Bits): (r: Parsed<seq<nat>>)
    requires nGroups > 0
    ensures r.Got? ==> |r.value| == n && |r.rest| <= |bits| && forall i :: 0 <= i < n ==> r.value[i] < nGroups
  {
    if n == 0 then Got([], bits)
    else
      var (j, rest) :- ParseUnary(nGroups, 0, bits);
      Prefixed([j], ParseSelectors(n - 1, nGroups, rest))
  }

  lemma {:induction false} SelectorsRoundTrip(js: seq<nat>, nGroups: nat, rest: Bits)
    requires nGroups > 0 && forall i :: 0 <= i < |js| ==> js[i] < nGroups
    ensures ParseSelectors(|js|, nGroups, SelectorBits(js) + rest) == Got(js, rest)
  {
    if js == [] {
      assert SelectorBits(js) + rest == rest;
    } else {
      hide Unary, ParseUnary;
      SelectorsRoundTrip(js[1..], nGroups, rest);
      var more := SelectorBits(js[1..]) + rest;
      UnaryRoundTrip(nGroups, 0, js[0], more);
      assert SelectorBits(js) + rest == Unary(js[0]) + more;
      assert js == [js[0]] + js[1..];
    }
  }

  /** Places of the selectors in a move-to-front list. */
  function Places(pos: seq<nat>, selectors: seq<nat>): (js: seq<nat>)
    requires forall i :: 0 <= i < |selectors| ==> selectors[i] in pos
    ensures |js| == |selectors| && forall i :: 0 <= i < |js| ==> js[i] < |pos|
    decreases |selectors|
  {
    if selectors == [] then []
    else
      var k := IndexOf(pos, selectors[0]);
      FrontKeeps(pos, k);
      [k] + Places(Front(pos, k), selectors[1..])
  }

  /** The selectors at the given places. */
  function Unplace(pos: seq<nat>, js: seq<nat>): (s: seq<nat>)
    requires forall i :: 0 <= i < |js| ==> js[i] < |pos|
    ensures |s| == |js| && forall i :: 0 <= i < |s| ==> s[i] in pos
    decreases |js|
  {
    if js == [] then []
    else
      FrontKeeps(pos, js[0]);
      [pos[js[0]]] + Unplace(Front(pos, js[0]), js[1..])
  }

  lemma {:induction false} PlacesRoundTrip(pos: seq<nat>, selectors: seq<nat>)
    requires forall i :: 0 <= i < |selectors| ==> selectors[i] in pos
    ensures Unplace(pos, Places(pos, selectors)) == selectors
    decreases |selectors|
  {
    if selectors != [] {
      var k := IndexOf(pos, selectors[0]);
      FrontKeeps(pos, k);
      PlacesRoundTrip(Front(pos, k), selectors[1..]);
      assert Places(pos, selectors)[1..] == Places(Front(pos, k), selectors[1..]);
      assert selectors == [selectors[0]] + selectors[1..];
    }
  }

  // ---- Code lengths, as differences ----

  /** Steps from one length to the next: 10 is one up, 11 one down, 0 says it is reached. */
  function StepBits(curr: nat, l: nat): Bits
    decreases if curr < l then l - curr else curr - l
  {
    if curr < l then [true, false] + StepBits(curr + 1, l)
    else if curr > l then [true, true] + StepBits(curr - 1, l)
    else [false]
  }

  function LengthBits(curr: nat, lens: seq<Byte>): Bits
    decreases |lens|
  {
    if lens == [] then [] else StepBits(curr, lens[0]) + LengthBits(lens[0], lens[1..])
  }

  function TableBits(lens: seq<Byte>): Bits
    requires lens != []
  {
    BitsOf(lens[0], 5) + LengthBits(lens[0], lens)
  }

  /** Reads n lengths, the last one read being curr. */
  function ParseLengths(n: nat, curr: int, bits: Bits): (r: Parsed<seq<Byte>>)
    ensures r.Got? ==> |r.value| == n && |r.rest| <= |bits| && forall i :: 0 <= i < n ==> 1 <= r.value[i] <= 20
    decreases |bits|, n
  {
    if n == 0 then Got([], bits)
    else if curr < 1 || curr > 20 then Invalid
    else if bits == [] then Short
    else if !bits[0] then Prefixed([curr], ParseLengths(n - 1, curr, bits[1..]))
    else if |bits| < 2 then Short
    else ParseLengths(n, if bits[1] then curr - 1 else curr + 1, bits[2..])
  }

  lemma {:induction false} StepsRoundTrip(n: nat, curr: nat, l: Byte, more: Bits)
    requires n > 0 && 1 <= curr <= 20 && 1 <= l <= 20
    ensures ParseLengths(n, curr, StepBits(curr, l) + more) == Prefixed([l], ParseLengths(n - 1, l, more))
    decreases if curr < l then l - curr else curr - l
  {
    if curr == l {
      assert (StepBits(curr, l) + more)[1..] == more;
    } else {
      var next := if curr < l then curr + 1 else curr - 1;
      StepsRoundTrip(n, next, l, more);
      OneStep(n, curr, l, more);
    }
  }

  lemma OneStep(n: nat, curr: nat, l: Byte, more: Bits)
    requires n > 0 && 1 <= curr <= 20 && 1 <= l <= 20 && curr != l
    ensures ParseLengths(n, curr, StepBits(curr, l) + more)
            == ParseLengths(n, if curr < l then curr + 1 else curr - 1,
                            StepBits(if curr < l then curr + 1 else curr - 1, l) + more)
  {
    var next, step := if curr < l then curr + 1 else curr - 1, [true, curr > l];
    var bits := StepBits(curr, l) + more;
    assert bits == step + (StepBits(next, l) + more);
    hide StepBits;
    assert bits[2..] == StepBits(next, l) + more && bits[0] && bits[1] == (curr > l);
  }

  lemma {:induction false} LengthsRoundTrip(curr: nat, lens: seq<Byte>, rest: Bits)
    requires 1 <= curr <= 20 && forall i :: 0 <= i < |lens| ==> 1 <= lens[i] <= 20
    ensures ParseLengths(|lens|, curr, LengthBits(curr, lens) + rest) == Got(lens, rest)
    decreases |lens|
  {
    if lens == [] {
      assert LengthBits(curr, lens) + rest == rest;
    } else {
      LengthsRoundTrip(lens[0], lens[1..], rest);
      OneLength(curr, lens, rest);
    }
  }

  lemma OneLength(curr: nat, lens: seq<Byte>, rest: Bits)
    requires lens != [] && 1 <= curr <= 20 && 1 <= lens[0] <= 20
    requires ParseLengths(|lens| - 1, lens[0], LengthBits(lens[0], lens[1..]) + rest) == Got(lens[1..], rest)
    ensures ParseLengths(|lens|, curr, LengthBits(curr, lens) + rest) == Got(lens, rest)
  {
    hide StepBits, ParseLengths;
    var more := LengthBits(lens[0], lens[1..]) + rest;
    StepsRoundTrip(|lens|, curr, lens[0], more);
    assert LengthBits(curr, lens) + rest == StepBits(curr, lens[0]) + more;
    assert lens == [lens[0]] + lens[1..];
  }

  function ParseTable(n: nat, bits: Bits): (r: Parsed<seq<Byte>>)
    ensures r.Got? ==> |r.value| == n && |r.rest| <= |bits| && forall i :: 0 <= i < n ==> 1 <= r.value[i] <= 20
  {
    var (curr, rest) :- ParseNumber(5, bits);
    ParseLengths(n, curr, rest)
  }

  lemma TableRoundTrip(lens: seq<Byte>, rest: Bits)
    requires lens != [] && forall i :: 0 <= i < |lens| ==> 1 <= lens[i] <= 20
    ensures ParseTable(|lens|, TableBits(lens) + rest) == Got(lens, rest)
  {
    var more := LengthBits(lens[0], lens) + rest;
    assert Pow2(5) == 32;
    NumberRoundTrip(5, lens[0], more);
    assert TableBits(lens) + rest == BitsOf(lens[0], 5) + more;
    LengthsRoundTrip(lens[0], lens, rest);
  }

  function TablesBits(lens: seq<seq<Byte>>): Bits
    requires forall t :: 0 <= t < |lens| ==> lens[t] != []
  {
    if lens == [] then [] else TableBits(lens[0]) + TablesBits(lens[1..])
  }

  function ParseTables(n: nat, alphaSize: nat, bits: Bits): (r: Parsed<seq<seq<Byte>>>)
    ensures r.Got? ==> |r.value| == n && |r.rest| <= |bits| && forall t :: 0 <= t < n ==> TableOk(r.value[t], alphaSize)
  {
    if n == 0 then Got([], bits)
    else
      var (l, rest) :- ParseTable(alphaSize, bits);
      Prefixed([l], ParseTables(n - 1, alphaSize, rest))
  }

  /** A length for every symbol, from 1 to 20. */
  ghost predicate TableOk(lens: seq<Byte>, alphaSize: nat) {
    |lens| == alphaSize && forall i :: 0 <= i < alphaSize ==> 1 <= lens[i] <= 20
  }

  lemma {:induction false} TablesRoundTrip(lens: seq<seq<Byte>>, alphaSize: nat, rest: Bits)
    requires alphaSize > 0 && forall t :: 0 <= t < |lens| ==> TableOk(lens[t], alphaSize) && lens[t] != []
    ensures ParseTables(|lens|, alphaSize, TablesBits(lens) + rest) == Got(lens, rest)
  {
    if lens == [] {
      assert TablesBits(lens) + rest == rest;
    } else {
      TablesRoundTrip(lens[1..], alphaSize, rest);
      OneTable(lens, alphaSize, rest);
    }
  }

  lemma OneTable(lens: seq<seq<Byte>>, alphaSize: nat, rest: Bits)
    requires lens != [] && alphaSize > 0 && forall t :: 0 <= t < |lens| ==> TableOk(lens[t], alphaSize) && lens[t] != []
    requires ParseTables(|lens| - 1, alphaSize, TablesBits(lens[1..]) + rest) == Got(lens[1..], rest)
    ensures ParseTables(|lens|, alphaSize, TablesBits(lens) + rest) == Got(lens, rest)
  {
    hide ParseTable, TableBits;
    assert TableOk(lens[0], alphaSize);
    var more := TablesBits(lens[1..]) + rest;
    TableRoundTrip(lens[0], more);
    assert TablesBits(lens) == TableBits(lens[0]) + TablesBits(lens[1..]);
    hide TablesBits, TableOk;
    assert TablesBits(lens) + rest == TableBits(lens[0]) + more;
    assert lens == [lens[0]] + lens[1..];
  }
}

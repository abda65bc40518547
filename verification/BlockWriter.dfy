/** Writing a block: header fields, then its codes under the tables the selectors name. */
module BlockWriter {
  import opened Permutations
  import opened HeaderBits
  import opened BitStream
  import opened CanonicalCodes
  import opened MoveToFront
  import opened MtfEncoder
  import opened SymbolStream
  import opened BlockFormat
  import opened BlockHeader

  lemma SmallBits()
    ensures BitsOf(1, 1) == [true] && BitsOf(0, 1) == [false]
    ensures BitsOf(2, 2) == [true, false] && BitsOf(3, 2) == [true, true]
    ensures Pow2(1) == 2 && Pow2(2) == 4
  {
    assert BitsOf(1, 1) == BitsOf(0, 0) + [true];
    assert BitsOf(0, 1) == BitsOf(0, 0) + [false];
    assert BitsOf(2, 2) == BitsOf(1, 1) + [false];
    assert BitsOf(3, 2) == BitsOf(1, 1) + [true];
  }

  method PutBit(w: BitWriter, one: bool)
    requires w.Valid()
    modifies w
    ensures w.Valid() && w.Contents() == old(w.Contents()) + [one]
  {
    SmallBits();
    if one { w.W(1, 1); } else { w.W(1, 0); }
  }

  method PutBytes(w: BitWriter, s: seq<Byte>)
    requires w.Valid()
    modifies w
    ensures w.Valid() && w.Contents() == old(w.Contents()) + BytesToBits(s)
  {
    hide BitWriter.Contents, BitWriter.Valid, BytesToBits, BitsOf, Pow2;
    var i := 0;
    ghost var was := w.Contents();
    NoBytes(s);
    NoBits(was);
    Pow2Bytes();
    while i < |s|
      invariant i <= |s| && w.Valid() && w.Contents() == was + BytesToBits(s[..i])
    {
      w.W(8, s[i]);
      BytesUpTo(s, i);
      Regroup(was, BytesToBits(s[..i]), BitsOf(s[i], 8));
      i := i + 1;
    }
    assert s[..|s|] == s;
  }

  lemma NoBytes(s: seq<Byte>)
    ensures BytesToBits(s[..0]) == []
  {
  }

  lemma BytesUpTo(s: seq<Byte>, i: nat)
    requires i < |s|
    ensures BytesToBits(s[..i + 1]) == BytesToBits(s[..i]) + BitsOf(s[i], 8)
  {
    assert s[..i + 1][..i] == s[..i];
  }

  method PutFlags(w: BitWriter, flags: seq<bool>)
    requires w.Valid()
    modifies w
    ensures w.Valid() && w.Contents() == old(w.Contents()) + flags
  {
    var i := 0;
    ghost var was := w.Contents();
    assert was + flags[..0] == was;
    while i < |flags|
      invariant i <= |flags| && w.Valid() && w.Contents() == was + flags[..i]
    {
      PutBit(w, flags[i]);
      assert was + flags[..i] + [flags[i]] == was + flags[..i + 1];
      i := i + 1;
    }
    assert flags[..|flags|] == flags;
  }

  /** Which rows of sixteen bytes have one in use. */
  method Summarise(inUse: seq<bool>) returns (inUse16: seq<bool>)
    requires |inUse| == 256
    ensures inUse16 == Summary(inUse)
  {
    inUse16 := NoneUsed(16);
    var i := 0;
    while i < 16
      invariant i <= 16 == |inUse16|
      invariant forall k :: 0 <= k < i ==> inUse16[k] == (true in Row(inUse, k))
      invariant forall k :: i <= k < 16 ==> !inUse16[k]
    {
      var j := 0;
      while j < 16
        invariant j <= 16 == |inUse16| && inUse16[i] == (true in Row(inUse, i)[..j])
        invariant forall k :: 0 <= k < i ==> inUse16[k] == (true in Row(inUse, k))
        invariant forall k :: i < k < 16 ==> !inUse16[k]
      {
        assert Row(inUse, i)[..j + 1] == Row(inUse, i)[..j] + [inUse[16 * i + j]];
        if inUse[i * 16 + j] { inUse16 := inUse16[i := true]; }
        j := j + 1;
      }
      assert Row(inUse, i)[..16] == Row(inUse, i);
      i := i + 1;
    }
  }

  lemma RowStep(inUse: seq<bool>, i: nat)
    requires |inUse| == 256 && i < 16
    ensures RowBits(inUse, i) == (if Summary(inUse)[i] then Row(inUse, i) else []) + RowBits(inUse, i + 1)
  {
  }

  /** The mapping table: which rows of sixteen bytes are used, then those rows. */
  method PutMap(w: BitWriter, inUse: seq<bool>)
    requires w.Valid() && |inUse| == 256
    modifies w
    ensures w.Valid() && w.Contents() == old(w.Contents()) + MapBits(inUse)
  {
    ghost var want := w.Contents() + MapBits(inUse);
    hide BitWriter.Contents, BitWriter.Valid, RowBits, Row;
    var inUse16 := Summarise(inUse);
    Regroup(w.Contents(), Summary(inUse), RowBits(inUse, 0));
    hide MapBits, Summary;
    PutFlags(w, inUse16);
    var i := 0;
    while i < 16
      invariant i <= 16 && w.Valid()
      invariant w.Contents() + RowBits(inUse, i) == want
    {
      ghost var c := w.Contents();
      RowStep(inUse, i);
      NoBits(RowBits(inUse, i + 1));
      if inUse16[i] {
        PutFlags(w, Row(inUse, i));
        Regroup(c, Row(inUse, i), RowBits(inUse, i + 1));
      }
      i := i + 1;
    }
    NoRows(inUse);
    NoBits(w.Contents());
  }

  lemma NoBits(b: Bits)
    ensures b + [] == b && [] + b == b
  {
  }

  lemma NoRows(inUse: seq<bool>)
    requires |inUse| == 256
    ensures RowBits(inUse, 16) == []
  {
  }

  // ---- Selectors ----

  /** Move-to-front codes the selectors. */
  method PlaceAll(selectors: seq<nat>, nGroups: nat) returns (js: seq<nat>)
    requires 0 < nGroups <= N_GROUPS && forall i :: 0 <= i < |selectors| ==> selectors[i] < nGroups
    ensures forall i :: 0 <= i < |selectors| ==> selectors[i] in Iota(nGroups)
    ensures js == Places(Iota(nGroups), selectors)
  {
    InIota(selectors, nGroups);
    var pos := new nat[N_GROUPS](_ => 0);
    var i := 0;
    while i < nGroups
      invariant i <= nGroups && forall k :: 0 <= k < i ==> pos[k] == k
    {
      pos[i] := i;
      i := i + 1;
    }
    assert pos[..nGroups] == Iota(nGroups);
    js := PlaceFrom(pos, selectors, nGroups);
  }

  lemma PlacesHead(pos: seq<nat>, selectors: seq<nat>)
    requires (forall k :: 0 <= k < |selectors| ==> selectors[k] in pos) && selectors != []
    ensures var j := IndexOf(pos, selectors[0]);
            && (forall k :: 0 < k < |selectors| ==> selectors[k] in Front(pos, j))
            && Places(pos, selectors) == [j] + Places(Front(pos, j), selectors[1..])
  {
    FrontKeeps(pos, IndexOf(pos, selectors[0]));
    hide Front;
  }

  lemma PlacesOf(pos: seq<nat>, selectors: seq<nat>, i: nat, js: seq<nat>)
    requires (forall k :: i <= k < |selectors| ==> selectors[k] in pos) && i < |selectors|
    ensures var j := IndexOf(pos, selectors[i]);
            && (forall k :: i < k < |selectors| ==> selectors[k] in Front(pos, j))
            && js + Places(pos, selectors[i..]) == js + [j] + Places(Front(pos, j), selectors[i + 1..])
  {
    hide Places, Front;
    var j := IndexOf(pos, selectors[i]);
    PlacesHead(pos, selectors[i..]);
    assert selectors[i..][1..] == selectors[i + 1..];
    assert js + ([j] + Places(Front(pos, j), selectors[i + 1..])) == js + [j] + Places(Front(pos, j), selectors[i + 1..]);
  }

  method PlaceFrom(pos: array<nat>, selectors: seq<nat>, ghost n: nat) returns (js: seq<nat>)
    requires n <= pos.Length && forall i :: 0 <= i < |selectors| ==> selectors[i] in pos[..n]
    modifies pos
    ensures js == Places(old(pos[..n]), selectors)
  {
    hide Places, Front;
    ghost var want := Places(pos[..n], selectors);
    js := [];
    var i := 0;
    assert selectors[0..] == selectors && [] + want == want;
    while i < |selectors|
      invariant i <= |selectors|
      invariant forall k :: i <= k < |selectors| ==> selectors[k] in pos[..n]
      invariant js + Places(pos[..n], selectors[i..]) == want
    {
      PlacesOf(pos[..n], selectors, i, js);
      var j := FindAndMove(pos, selectors[i], n);
      js := js + [j];
      i := i + 1;
    }
    NoPlaces(pos[..n], selectors[i..]);
    assert js + [] == js;
  }

  lemma NoPlaces(pos: seq<nat>, selectors: seq<nat>)
    requires selectors == []
    ensures Places(pos, selectors) == []
  {
  }

  method PutUnary(w: BitWriter, n: nat)
    requires w.Valid()
    modifies w
    ensures w.Valid() && w.Contents() == old(w.Contents()) + Unary(n)
  {
    var j := 0;
    ghost var want := w.Contents() + Unary(n);
    assert w.Contents() + (Ones(n) + [false]) == want;
    while j < n
      invariant j <= n && w.Valid() && w.Contents() + (Ones(n - j) + [false]) == want
    {
      ghost var c := w.Contents();
      PutBit(w, true);
      assert c + ([true] + Ones(n - j - 1) + [false]) == c + [true] + (Ones(n - j - 1) + [false]);
      j := j + 1;
    }
    PutBit(w, false);
  }

  lemma SelectorsOf(js: seq<nat>, i: nat)
    requires i <= |js|
    ensures i < |js| ==> SelectorBits(js[i..]) == Unary(js[i]) + SelectorBits(js[i + 1..])
    ensures i == |js| ==> SelectorBits(js[i..]) == []
  {
    if i < |js| {
      assert js[i..][1..] == js[i + 1..];
    }
  }

  method PutPlaces(w: BitWriter, js: seq<nat>)
    requires w.Valid()
    modifies w
    ensures w.Valid() && w.Contents() == old(w.Contents()) + SelectorBits(js)
  {
    hide BitWriter.Contents, BitWriter.Valid, SelectorBits, Unary;
    ghost var want := w.Contents() + SelectorBits(js);
    assert js[0..] == js;
    var i := 0;
    while i < |js|
      invariant i <= |js| && w.Valid() && w.Contents() + SelectorBits(js[i..]) == want
    {
      SelectorsOf(js, i);
      Regroup(w.Contents(), Unary(js[i]), SelectorBits(js[i + 1..]));
      PutUnary(w, js[i]);
      i := i + 1;
    }
    SelectorsOf(js, i);
    NoBits(w.Contents());
  }

  method PutSelectors(w: BitWriter, selectors: seq<nat>, nGroups: nat)
    requires w.Valid() && 2 <= nGroups <= N_GROUPS && |selectors| <= MAX_SELECTORS
    requires forall i :: 0 <= i < |selectors| ==> selectors[i] < nGroups
    modifies w
    ensures w.Valid() && w.Contents() == old(w.Contents()) + SelectorSection(selectors, nGroups)
  {
    hide BitWriter.Contents, BitWriter.Valid, SelectorBits, BitsOf, Pow2;
    ghost var was := w.Contents();
    var selectorMtf := PlaceAll(selectors, nGroups);
    SectionNumbers(nGroups, |selectors|);
    w.W(3, nGroups);
    w.W(15, |selectors|);
    PutPlaces(w, selectorMtf);
    Regroup(was, BitsOf(nGroups, 3), BitsOf(|selectors|, 15));
    Regroup(was, BitsOf(nGroups, 3) + BitsOf(|selectors|, 15), SelectorBits(selectorMtf));
  }

  lemma SectionNumbers(nGroups: nat, nSelectors: nat)
    requires nGroups <= N_GROUPS && nSelectors <= MAX_SELECTORS
    ensures nGroups < Pow2(3) && nSelectors < Pow2(15)
  {
    assert Pow2(3) == 8;
    assert Pow2(8) == 256;
    assert Pow2(15) == 32768;
  }

  // ---- Code lengths ----

  lemma StepOf(curr: nat, l: nat)
    ensures curr < l ==> StepBits(curr, l) == [true, false] + StepBits(curr + 1, l)
    ensures curr > l ==> StepBits(curr, l) == [true, true] + StepBits(curr - 1, l)
    ensures curr == l ==> StepBits(curr, l) == [false]
  {
  }

  /** One step up or down. */
  method PutStep(w: BitWriter, curr: nat, l: nat) returns (next: nat)
    requires w.Valid() && curr != l
    modifies w
    ensures w.Valid() && next == if curr < l then curr + 1 else curr - 1
    ensures w.Contents() + StepBits(next, l) == old(w.Contents()) + StepBits(curr, l)
  {
    SmallBits();
    StepOf(curr, l);
    hide BitWriter.Contents, BitWriter.Valid, StepBits, BitsOf, Pow2;
    if curr < l {
      Regroup(w.Contents(), [true, false], StepBits(curr + 1, l));
      w.W(2, 2);
      next := curr + 1;
    } else {
      Regroup(w.Contents(), [true, true], StepBits(curr - 1, l));
      w.W(2, 3);
      next := curr - 1;
    }
  }

  /** Steps from one length to the next. */
  method PutSteps(w: BitWriter, curr0: nat, l: nat)
    requires w.Valid()
    modifies w
    ensures w.Valid() && w.Contents() == old(w.Contents()) + StepBits(curr0, l)
  {
    var curr := curr0;
    ghost var want := w.Contents() + StepBits(curr, l);
    hide BitWriter.Contents, BitWriter.Valid, StepBits, BitsOf, Pow2;
    while curr < l
      invariant w.Valid() && w.Contents() + StepBits(curr, l) == want
      decreases l - curr
    {
      curr := PutStep(w, curr, l);
    }
    while curr > l
      invariant curr >= l && w.Valid() && w.Contents() + StepBits(curr, l) == want
    {
      curr := PutStep(w, curr, l);
    }
    StepOf(curr, l);
    PutBit(w, false);
  }

  lemma LengthsOf(curr: nat, len: seq<Byte>, i: nat)
    requires i <= |len|
    ensures i < |len| ==> LengthBits(curr, len[i..]) == StepBits(curr, len[i]) + LengthBits(len[i], len[i + 1..])
    ensures i == |len| ==> LengthBits(curr, len[i..]) == []
  {
    if i < |len| {
      assert len[i..][1..] == len[i + 1..];
    }
  }

  method PutTable(w: BitWriter, len: seq<Byte>)
    requires w.Valid() && len != [] && forall i :: 0 <= i < |len| ==> 1 <= len[i] <= 20
    modifies w
    ensures w.Valid() && w.Contents() == old(w.Contents()) + TableBits(len)
  {
    ghost var want := w.Contents() + TableBits(len);
    assert Pow2(5) == 32;
    hide BitWriter.Contents, BitWriter.Valid, StepBits, LengthBits, BitsOf, Pow2;
    var curr: nat := len[0];
    Regroup(w.Contents(), BitsOf(curr, 5), LengthBits(curr, len));
    w.W(5, curr);
    var i := 0;
    assert len[0..] == len;
    while i < |len|
      invariant i <= |len| && w.Valid() && w.Contents() + LengthBits(curr, len[i..]) == want
    {
      LengthsOf(curr, len, i);
      Regroup(w.Contents(), StepBits(curr, len[i]), LengthBits(len[i], len[i + 1..]));
      PutSteps(w, curr, len[i]);
      curr := len[i];
      i := i + 1;
    }
    LengthsOf(curr, len, i);
    NoBits(w.Contents());
  }

  lemma TablesOf(lens: seq<seq<Byte>>, t: nat)
    requires t <= |lens| && forall t :: 0 <= t < |lens| ==> lens[t] != []
    ensures t < |lens| ==> TablesBits(lens[t..]) == TableBits(lens[t]) + TablesBits(lens[t + 1..])
    ensures t == |lens| ==> TablesBits(lens[t..]) == []
  {
    if t < |lens| {
      assert lens[t..][1..] == lens[t + 1..];
    }
  }

  method PutTables(w: BitWriter, lens: seq<seq<Byte>>, ghost alphaSize: nat)
    requires w.Valid() && alphaSize > 0 && forall t :: 0 <= t < |lens| ==> TableOk(lens[t], alphaSize) && lens[t] != []
    modifies w
    ensures w.Valid() && w.Contents() == old(w.Contents()) + TablesBits(lens)
  {
    ghost var want := w.Contents() + TablesBits(lens);
    hide BitWriter.Contents, BitWriter.Valid, TableBits, TablesBits;
    var t := 0;
    assert lens[0..] == lens;
    while t < |lens|
      invariant t <= |lens| && w.Valid() && w.Contents() + TablesBits(lens[t..]) == want
    {
      assert TableOk(lens[t], alphaSize);
      TablesOf(lens, t);
      Regroup(w.Contents(), TableBits(lens[t]), TablesBits(lens[t + 1..]));
      PutTable(w, lens[t]);
      t := t + 1;
    }
    TablesOf(lens, t);
    NoBits(w.Contents());
  }

  // ---- The block ----

  /** Header and magic number of a block. */
  method PutHeader(w: BitWriter, h: Header, ghost size: nat)
    requires w.Valid() && Writable(h, size)
    modifies w
    ensures w.Valid() && w.Contents() == old(w.Contents()) + SectionBits(Block(h))
  {
    Pow2Bytes();
    assert Pow2(1) == 2;
    ghost var was := w.Contents();
    hide BytesToBits, BitsOf, MapBits, SelectorSection, TablesBits, BitWriter.Contents, BitWriter.Valid, Pow2, Used;
    PutBytes(w, BLOCK_MAGIC);
    PutBytes(w, h.crc);
    w.W(1, h.randomised);
    w.W(24, h.origPtr);
    PutMap(w, h.inUse);
    PutSelectors(w, h.selectors, |h.lens|);
    PutTables(w, h.lens, AlphaSize(h.inUse));
    Regroup7(was, BytesToBits(BLOCK_MAGIC), BytesToBits(h.crc), BitsOf(h.randomised, 1), BitsOf(h.origPtr, 24),
             MapBits(h.inUse), SelectorSection(h.selectors, |h.lens|), TablesBits(h.lens));
  }

  lemma Regroup7(was: Bits, m: Bits, a: Bits, b: Bits, c: Bits, d: Bits, e: Bits, f: Bits)
    ensures was + m + a + b + c + d + e + f == was + (m + (a + (b + (c + (d + (e + f))))))
  {
    Regroup(was + m + a + b + c + d, e, f);
    Regroup(was + m + a + b + c, d, e + f);
    Regroup(was + m + a + b, c, d + (e + f));
    Regroup(was + m + a, b, c + (d + (e + f)));
    Regroup(was + m, a, b + (c + (d + (e + f))));
    Regroup(was, m, a + (b + (c + (d + (e + f)))));
  }

  /** All tables' codes. */
  ghost predicate CodesOf(code: seq<seq<nat>>, lens: seq<seq<Byte>>) {
    && |code| == |lens|
    && forall t :: 0 <= t < |lens| ==> TableCodes(code[t], lens[t])
  }

  ghost predicate TableCodes(code: seq<nat>, len: seq<Byte>) {
    |code| == |len| && forall i :: 0 <= i < |len| ==> code[i] == Code(len, i)
  }

  /** The shortest and the longest length in a table. */
  method Extremes(len: seq<Byte>) returns (minLen: nat, maxLen: nat)
    requires len != [] && forall i :: 0 <= i < |len| ==> 1 <= len[i] <= LONGEST
    ensures 1 <= minLen <= maxLen <= LONGEST && forall i :: 0 <= i < |len| ==> minLen <= len[i] <= maxLen
    ensures minLen in len && maxLen in len
  {
    minLen, maxLen := 32, 0;
    var i := 0;
    while i < |len|
      invariant i <= |len| && maxLen <= LONGEST
      invariant forall k :: 0 <= k < i ==> minLen <= len[k] <= maxLen
      invariant if i == 0 then minLen == 32 && maxLen == 0 else 1 <= minLen <= maxLen && minLen in len && maxLen in len
    {
      if len[i] > maxLen { maxLen := len[i]; }
      if len[i] < minLen { minLen := len[i]; }
      i := i + 1;
    }
  }

  method AssignAll(lens: seq<seq<Byte>>) returns (code: seq<seq<nat>>)
    requires forall t :: 0 <= t < |lens| ==> Lengths(lens[t])
    ensures CodesOf(code, lens)
  {
    code := [];
    while |code| < |lens|
      invariant |code| <= |lens| && CodesOf(code, lens[..|code|])
    {
      var len := lens[|code|];
      assert Lengths(len);
      var minLen, maxLen := Extremes(len);
      var codes := new nat[|len|](_ => 0);
      AssignCodes(codes, len, minLen, maxLen, |len|);
      assert TableCodes(codes[..], len);
      code := code + [codes[..]];
    }
    assert lens[..|lens|] == lens;
  }

  /** What one group writes: codes gs..ge-1 of the block. */
  method PutGroup(w: BitWriter, mtfv: seq<nat>, gs: nat, ge: nat, len: seq<Byte>, code: seq<nat>,
                  ghost lens: seq<seq<Byte>>, ghost selectors: seq<nat>, ghost g: nat)
    requires w.Valid() && gs < ge <= |mtfv| && ge <= gs + G_SIZE && gs == G_SIZE * g
    requires Writes(lens, selectors, gs, mtfv[gs..]) && g < |selectors| && selectors[g] < |lens|
    requires len == lens[selectors[g]] && TableCodes(code, len) && Lengths(len) && KraftSum(len, LONGEST) <= Pow2(LONGEST)
    modifies w
    ensures w.Valid() && Writes(lens, selectors, ge, mtfv[ge..])
    ensures w.Contents() + CodedBits(lens, selectors, ge, mtfv[ge..])
            == old(w.Contents()) + CodedBits(lens, selectors, gs, mtfv[gs..])
  {
    hide CodedBits, Writes, KraftSum, Pow2, Lengths, Code, TableCodes, BitsOf, BitWriter.Contents, BitWriter.Valid;
    ghost var want := w.Contents() + CodedBits(lens, selectors, gs, mtfv[gs..]);
    var i := gs;
    while i < ge
      invariant gs <= i <= ge && w.Valid()
      invariant Writes(lens, selectors, i, mtfv[i..])
      invariant w.Contents() + CodedBits(lens, selectors, i, mtfv[i..]) == want
    {
      PutCode(w, mtfv, i, len, code, lens, selectors, g);
      i := i + 1;
    }
  }

  method PutCode(w: BitWriter, mtfv: seq<nat>, i: nat, len: seq<Byte>, code: seq<nat>,
                 ghost lens: seq<seq<Byte>>, ghost selectors: seq<nat>, ghost g: nat)
    requires w.Valid() && i < |mtfv| && Writes(lens, selectors, i, mtfv[i..])
    requires G_SIZE * g <= i < G_SIZE * g + G_SIZE && g < |selectors|
    requires selectors[g] < |lens| && len == lens[selectors[g]] && TableCodes(code, len)
    requires Lengths(len) && KraftSum(len, LONGEST) <= Pow2(LONGEST)
    modifies w
    ensures w.Valid() && Writes(lens, selectors, i + 1, mtfv[i + 1..])
    ensures w.Contents() + CodedBits(lens, selectors, i + 1, mtfv[i + 1..])
            == old(w.Contents()) + CodedBits(lens, selectors, i, mtfv[i..])
  {
    hide CodedBits, Writes, KraftSum, Pow2, Lengths, Code, TableCodes, BitsOf, BitWriter.Contents, BitWriter.Valid;
    CodedStep(lens, selectors, i, mtfv, code, len);
    Regroup(w.Contents(), BitsOf(code[mtfv[i]], len[mtfv[i]]), CodedBits(lens, selectors, i + 1, mtfv[i + 1..]));
    w.W(len[mtfv[i]], code[mtfv[i]]);
  }

  lemma CodedStep(lens: seq<seq<Byte>>, selectors: seq<nat>, i: nat, mtfv: seq<nat>, code: seq<nat>, len: seq<Byte>)
    requires i < |mtfv| && Writes(lens, selectors, i, mtfv[i..]) && i / G_SIZE < |selectors|
    requires selectors[i / G_SIZE] < |lens| && len == lens[selectors[i / G_SIZE]] && TableCodes(code, len)
    requires Lengths(len) && KraftSum(len, LONGEST) <= Pow2(LONGEST)
    ensures mtfv[i] < |len| == |code| && code[mtfv[i]] < Pow2(len[mtfv[i]]) && len[mtfv[i]] <= LONGEST
    ensures Writes(lens, selectors, i + 1, mtfv[i + 1..])
    ensures CodedBits(lens, selectors, i, mtfv[i..])
            == BitsOf(code[mtfv[i]], len[mtfv[i]]) + CodedBits(lens, selectors, i + 1, mtfv[i + 1..])
  {
    WritesHead(lens, selectors, i, mtfv[i..]);
    assert mtfv[i..][1..] == mtfv[i + 1..] && mtfv[i..][0] == mtfv[i];
    CodeBounds(len, mtfv[i]);
  }

  /** The coded data, fifty codes to a group. */
  method PutData(w: BitWriter, mtfv: seq<nat>, selectors: seq<nat>, lens: seq<seq<Byte>>, code: seq<seq<nat>>)
    requires w.Valid() && Writes(lens, selectors, 0, mtfv) && CodesOf(code, lens)
    requires forall t :: 0 <= t < |lens| ==> Lengths(lens[t]) && KraftSum(lens[t], LONGEST) <= Pow2(LONGEST)
    modifies w
    ensures w.Valid()
    ensures w.Contents() == old(w.Contents()) + CodedBits(lens, selectors, 0, mtfv)
  {
    var selCtr, gs := 0, 0;
    ghost var want := w.Contents() + CodedBits(lens, selectors, 0, mtfv);
    assert mtfv[0..] == mtfv;
    hide CodedBits, KraftSum, Lengths, TableCodes, BitWriter.Contents, BitWriter.Valid;
    while gs < |mtfv|
      invariant gs <= |mtfv| && w.Valid()
      invariant gs == if gs < |mtfv| then G_SIZE * selCtr else |mtfv|
      invariant Writes(lens, selectors, gs, mtfv[gs..])
      invariant w.Contents() + CodedBits(lens, selectors, gs, mtfv[gs..]) == want
    {
      var ge := if gs + G_SIZE <= |mtfv| then gs + G_SIZE else |mtfv|;
      assert selCtr == gs / G_SIZE && selCtr < |selectors|;
      var t := selectors[selCtr];
      assert TableCodes(code[t], lens[t]);
      PutGroup(w, mtfv, gs, ge, lens[t], code[t], lens, selectors, selCtr);
      gs := ge;
      selCtr := selCtr + 1;
    }
    NothingCoded(lens, selectors, gs, mtfv[gs..]);
    NoBits(w.Contents());
  }
}

/** A block through the whole coder and back: sorting, coding, bits, decoding, unsorting. */
module BlockCodec {
  import opened Permutations
  import opened HeaderBits
  import opened ByteView
  import opened Rotations
  import opened SegmentSortStack
  import opened BlockSorting
  import opened InverseBwt
  import opened Unsort
  import opened BitStream
  import opened CanonicalCodes
  import opened MoveToFront
  import opened MtfEncoder
  import opened SymbolStream
  import opened MtfDecoder
  import opened BlockFormat
  import opened BlockHeader
  import opened BlockWriter
  import opened TableChoice
  import opened BlockOutput
  import opened StreamSpec

  /** What a block is written as. */
  datatype Encoding = Encoding(header: Header, ptr: seq<nat>, toSeq: seq<nat>, codes: seq<nat>)

  /** The bytes in use are numbered in ascending order. */
  ghost predicate Ranks(inUse: seq<bool>, toSeq: seq<nat>) {
    |inUse| == 256 && |toSeq| == 256 && forall c :: 0 <= c < 256 && inUse[c] ==> toSeq[c] == Used(inUse, c)
  }

  ghost predicate UsesAll(inUse: seq<bool>, b: seq<Byte>) {
    |inUse| == 256 && forall i :: 0 <= i < |b| ==> inUse[b[i]]
  }

  /** The codes are those of the last column of the sorted rotations. */
  ghost predicate CodedAs(b: seq<Byte>, inUse: seq<bool>, ptr: seq<nat>, toSeq: seq<nat>, codes: seq<nat>) {
    && SortedRotations(b, ptr) && Ranks(inUse, toSeq) && UsesAll(inUse, b)
    && Covers(Iota(Used(inUse, 256)), Coded(b, ptr, toSeq))
    && codes == Codes(Iota(Used(inUse, 256)), Coded(b, ptr, toSeq), 0, Used(inUse, 256) + 1)
  }

  ghost predicate CodesBlock(b: seq<Byte>, e: Encoding) {
    CodedAs(b, e.header.inUse, e.ptr, e.toSeq, e.codes)
  }

  /** e is a way of writing block b, in a stream with blocks of `size` units. */
  ghost predicate Encodes(b: seq<Byte>, e: Encoding, size: nat) {
    && 0 < |b| <= BLOCK_UNIT * size && size <= 9 && Writable(e.header, size) && CodesBlock(b, e)
    && e.header.origPtr < |b| && e.ptr[e.header.origPtr] == 0
    && (forall t :: 0 <= t < |e.header.lens| ==> Usable(e.header.lens[t], AlphaSize(e.header.inUse)))
    && Writes(e.header.lens, e.header.selectors, 0, e.codes)
  }

  ghost function BlockBits(b: seq<Byte>, e: Encoding, size: nat): Bits
    requires Encodes(b, e, size)
  {
    SectionBits(Block(e.header)) + CodedBits(e.header.lens, e.header.selectors, 0, e.codes)
  }

  // ---- Compressing ----

  /** The pointers as 16-bit halves. */
  method AsHalves(fmap: array<nat>) returns (arr1: array<nat>)
    ensures fresh(arr1) && Unread(arr1[..], fmap[..], 0)
  {
    arr1 := new nat[2 * fmap.Length](_ => 0);
    var i := 0;
    while i < fmap.Length
      invariant i <= fmap.Length && forall k :: 0 <= k < i ==> Pointer(arr1[..], k) == fmap[k]
    {
      arr1[2 * i] := fmap[i] % 0x1_0000;
      arr1[2 * i + 1] := fmap[i] / 0x1_0000;
      i := i + 1;
    }
  }

  lemma CodesAreSmall(b: seq<Byte>, e: Encoding)
    requires CodesBlock(b, e) && Used(e.header.inUse, 256) > 0
    ensures forall i :: 0 <= i < |e.codes| ==> e.codes[i] < AlphaSize(e.header.inUse)
    ensures e.codes != [] && e.codes[|e.codes| - 1] == Used(e.header.inUse, 256) + 1
    ensures forall i :: 0 <= i < |e.codes| - 1 ==> e.codes[i] + 1 != AlphaSize(e.header.inUse)
  {
    var n := Used(e.header.inUse, 256);
    var l := Coded(b, e.ptr, e.toSeq);
    CodesInRange(Iota(n), l, 0, n + 1);
    CodesEnd(Iota(n), l, 0, n + 1);
  }

  lemma {:induction false} CodesEnd(y: seq<nat>, s: seq<nat>, z: nat, eob: nat)
    requires Covers(y, s)
    ensures Codes(y, s, z, eob) != [] && Codes(y, s, z, eob)[|Codes(y, s, z, eob)| - 1] == eob
    decreases |s|
  {
    if s != [] {
      CoversStep(y, s);
      if s[0] == y[0] {
        CodesEnd(y, s[1..], z + 1, eob);
      } else {
        CodesEnd(Front(y, IndexOf(y, s[0])), s[1..], 0, eob);
      }
    }
  }

  /** Codes of one block under the tables settled on. */
  lemma TablesWrite(lens: seq<seq<Byte>>, selectors: seq<nat>, codes: seq<nat>, alphaSize: nat)
    requires forall t :: 0 <= t < |lens| ==> Usable(lens[t], alphaSize)
    requires |selectors| == Groups(|codes|) && forall i :: 0 <= i < |selectors| ==> selectors[i] < |lens|
    requires forall i :: 0 <= i < |codes| ==> codes[i] < alphaSize
    ensures Writes(lens, selectors, 0, codes)
  {
  }

  /** Sorts and codes a block: everything up to the choice of tables. */
  method CodeBlock(eclass: array<nat>, block: seq<Byte>, inUse: seq<bool>, workFactor: int)
    returns (origPtr: nat, codes: seq<nat>, ghost ptr: seq<nat>, ghost toSeq: seq<nat>)
    requires 0 < |block| <= MAX_BLOCK && |block| <= eclass.Length && Bytes(eclass[..], |block|) == block
    requires UsesAll(inUse, block)
    modifies eclass
    ensures Used(inUse, 256) > 0 && 0 < |codes| <= |block| + 1 && Bytes(eclass[..], |block|) == block
    ensures origPtr < |block| == |ptr| && ptr[origPtr] == 0
    ensures CodedAs(block, inUse, ptr, toSeq, codes)
  {
    hide Bytes, Covers, Codes, Unread, Counts;
    var fmap;
    fmap, origPtr := BlockSort(eclass, |block|, workFactor, block);
    ptr := fmap[..];
    UsedMonotone(inUse, block[0], 256);
    var arr1 := AsHalves(fmap);
    var mtfFreq := new nat[FREQS](_ => 0);
    var nMTF, nInUse;
    nMTF, nInUse, toSeq := GenerateMtfValues(arr1, block, ptr, inUse, mtfFreq);
    codes := arr1[..nMTF];
  }

  /** Tables and selectors fit for writing some codes. */
  ghost predicate Settled(h: Header, codes: seq<nat>) {
    && |h.inUse| == 256 && 2 <= |h.lens| <= N_GROUPS
    && (forall t :: 0 <= t < |h.lens| ==> Usable(h.lens[t], AlphaSize(h.inUse)))
    && |h.selectors| == Groups(|codes|) && (forall i :: 0 <= i < |h.selectors| ==> h.selectors[i] < |h.lens|)
    && 0 < |codes| <= MAX_CODES && forall i :: 0 <= i < |codes| ==> codes[i] < AlphaSize(h.inUse)
  }

  lemma SettledWritable(h: Header, codes: seq<nat>, size: nat)
    requires Settled(h, codes) && |h.crc| == 4 && h.randomised == 0 && h.origPtr <= 10 + BLOCK_UNIT * size && size <= 9
    requires Used(h.inUse, 256) > 0
    ensures Writable(h, size) && Writes(h.lens, h.selectors, 0, codes)
    ensures forall t :: 0 <= t < |h.lens| ==> Lengths(h.lens[t]) && KraftSum(h.lens[t], LONGEST) <= Pow2(LONGEST)
    ensures forall t :: 0 <= t < |h.lens| ==> Usable(h.lens[t], AlphaSize(h.inUse))
  {
    TablesWrite(h.lens, h.selectors, codes, AlphaSize(h.inUse));
    TablesWritable(h, AlphaSize(h.inUse));
    UsableCodes(h.lens, AlphaSize(h.inUse));
  }

  /** Writes header and data of a block whose codes are known. */
  method SendBlock(w: BitWriter, h: Header, codes: seq<nat>, ghost size: nat)
    requires w.Valid() && Settled(h, codes) && Writable(h, size) && Writes(h.lens, h.selectors, 0, codes)
    requires forall t :: 0 <= t < |h.lens| ==> Lengths(h.lens[t]) && KraftSum(h.lens[t], LONGEST) <= Pow2(LONGEST)
    modifies w
    ensures w.Valid()
    ensures w.Contents() == old(w.Contents()) + (SectionBits(Block(h)) + CodedBits(h.lens, h.selectors, 0, codes))
  {
    hide BitWriter.Contents, BitWriter.Valid, SectionBits, CodedBits, Settled, Writes, Lengths, KraftSum, Pow2;
    ghost var was := w.Contents();
    PutHeader(w, h, size);
    var code := AssignAll(h.lens);
    PutData(w, codes, h.selectors, h.lens, code);
    BlockHeader.Regroup(was, SectionBits(Block(h)), CodedBits(h.lens, h.selectors, 0, codes));
  }

  /** The selectors and tables are those a pass over the codes makes from some tables before it. */
  ghost predicate WellChosen(h: Header, codes: seq<nat>)
    requires |h.inUse| == 256
  {
    exists before :: PassMakes(before, codes, AlphaSize(h.inUse), h.selectors, h.lens)
  }

  method Settle(h0: Header, codes: seq<nat>, guess: (nat, nat) -> seq<seq<Byte>>) returns (h: Header)
    requires |h0.inUse| == 256 && 0 < |codes| <= MAX_CODES && forall i :: 0 <= i < |codes| ==> codes[i] < AlphaSize(h0.inUse)
    requires forall n, a :: Shaped(guess(n, a), GroupCount(n), a)
    ensures Settled(h, codes) && h == h0.(selectors := h.selectors, lens := h.lens) && WellChosen(h, codes)
  {
    hide Usable, Used, PassMakes;
    var alphaSize := AlphaSize(h0.inUse);
    UsedBound(h0.inUse);
    var selectors, lens;
    ghost var passes, choices;
    selectors, lens, passes, choices := SettleTables(codes, alphaSize, guess(|codes|, alphaSize));
    assert PassMakes(passes[N_ITERS - 1], codes, alphaSize, selectors, lens);
    h := h0.(selectors := selectors, lens := lens);
  }

  lemma UsedBound(inUse: seq<bool>)
    requires |inUse| == 256
    ensures Used(inUse, 256) <= 256
  {
  }

  /** Writes one block, starting from any first guess at the coding tables. */
  method CompressBlock(w: BitWriter, eclass: array<nat>, block: seq<Byte>, inUse: seq<bool>, crc: seq<Byte>, size: nat,
                       guess: (nat, nat) -> seq<seq<Byte>>, workFactor: int)
    returns (ghost e: Encoding)
    requires w.Valid() && 0 < |block| <= BLOCK_UNIT * size && size <= 9 && |crc| == 4
    requires |block| <= eclass.Length && Bytes(eclass[..], |block|) == block
    requires UsesAll(inUse, block) && |inUse| == 256
    requires forall n, a :: Shaped(guess(n, a), GroupCount(n), a)
    modifies w, eclass
    ensures w.Valid() && Encodes(block, e, size) && e.header.crc == crc && e.header.randomised == 0
    ensures |e.header.inUse| == 256 && WellChosen(e.header, e.codes)
    ensures w.Contents() == old(w.Contents()) + BlockBits(block, e, size)
  {
    hide CodedAs, Usable, Settled, Writable, Writes, Lengths, KraftSum, Pow2, BitWriter.Contents, BitWriter.Valid, Shaped,
      SectionBits, CodedBits, Bytes, Used, UsesAll, WellChosen;
    var origPtr, codes;
    ghost var ptr, toSeq;
    origPtr, codes, ptr, toSeq := CodeBlock(eclass, block, inUse, workFactor);
    var h0 := Header(crc, 0, origPtr, inUse, [], []);
    CodesAreSmall(block, Encoding(h0, ptr, toSeq, codes));
    var h := Settle(h0, codes, guess);
    e := Encoding(h, ptr, toSeq, codes);
    SettledWritable(h, codes, size);
    SendBlock(w, h, codes, size);
  }

  lemma UsableCodes(lens: seq<seq<Byte>>, alphaSize: nat)
    requires 0 < alphaSize <= MAX_ALPHA && forall t :: 0 <= t < |lens| ==> Usable(lens[t], alphaSize)
    ensures forall t :: 0 <= t < |lens| ==> Lengths(lens[t]) && KraftSum(lens[t], LONGEST) <= Pow2(LONGEST)
  {
  }

  lemma TablesWritable(h: Header, alphaSize: nat)
    requires |h.inUse| == 256 && alphaSize == AlphaSize(h.inUse) && forall t :: 0 <= t < |h.lens| ==> Usable(h.lens[t], alphaSize)
    ensures forall t :: 0 <= t < |h.lens| ==> TableOk(h.lens[t], alphaSize) && h.lens[t] != []
  {
  }

  // ---- What is written, decoded ----

  /** The byte of a byte's rank is that byte. */
  lemma RanksInvert(b: seq<Byte>, e: Encoding, toByte: seq<Byte>)
    requires CodesBlock(b, e) && |toByte| == 256
    requires forall c :: 0 <= c < 256 && e.header.inUse[c] ==> toByte[Used(e.header.inUse, c)] == c
    ensures |e.toSeq| == 256 && |e.ptr| == |b| && forall i :: 0 <= i < |e.ptr| ==> e.ptr[i] < |b|
    ensures Chars(toByte, Coded(b, e.ptr, e.toSeq)) == LastColumn(b, e.ptr)
  {
    var inUse, l := e.header.inUse, Coded(b, e.ptr, e.toSeq);
    forall i | 0 <= i < |b| ensures Chars(toByte, l)[i] == LastColumn(b, e.ptr)[i] {
      var c := b[Prev(|b|, e.ptr[i])];
      assert l[i] == e.toSeq[c] == Used(inUse, c);
      UsedMonotone(inUse, c, 256);
      assert Used(inUse, 256) <= 256;
    }
  }

  lemma EncodedColumn(b: seq<Byte>, e: Encoding, size: nat)
    requires Encodes(b, e, size)
    ensures |e.header.inUse| == 256 && |e.toSeq| == 256 && 0 < Used(e.header.inUse, 256) && 0 < |b| <= BLOCK_UNIT * size && size <= 9
    ensures |e.ptr| == |b| && forall i :: 0 <= i < |e.ptr| ==> e.ptr[i] < |b|
    ensures Covers(Iota(Used(e.header.inUse, 256)), Coded(b, e.ptr, e.toSeq))
    ensures e.codes == Codes(Iota(Used(e.header.inUse, 256)), Coded(b, e.ptr, e.toSeq), 0, Used(e.header.inUse, 256) + 1)
  {
    hide Usable, Writes, Codes, Covers, Coded, Used;
  }

  /** What is written decodes to the column of the block. */
  lemma ColumnDecodes(b: seq<Byte>, e: Encoding, size: nat)
    requires Encodes(b, e, size)
    ensures |e.toSeq| == 256 && |e.ptr| == |b| && forall i :: 0 <= i < |e.ptr| ==> e.ptr[i] < |b|
    ensures InList(e.codes, 256, Used(e.header.inUse, 256) + 1)
    ensures Undo(Iota(256), e.codes, Used(e.header.inUse, 256) + 1, 0, 1, BLOCK_UNIT * size)
            == Done(Coded(b, e.ptr, e.toSeq))
  {
    hide Undo, Codes, SortedRotations, Covers, Writable, Usable, Writes, Coded, Ranks, UsesAll, Used, Encodes, InList;
    EncodedColumn(b, e, size);
    var n, l := Used(e.header.inUse, 256), Coded(b, e.ptr, e.toSeq);
    UsedBound(e.header.inUse);
    var tail := seq(256 - n, i requires 0 <= i < 256 - n => n + i);
    assert Iota(256) == Iota(n) + tail;
    UndoCodes(Iota(n), tail, l, 0, n + 1, BLOCK_UNIT * size);
    assert Repeat(Iota(n)[0], 0) + l == l;
  }

  lemma TablesMatch(lens: seq<seq<Byte>>, tables: seq<Coding>, alphaSize: nat)
    requires |lens| == |tables| && forall t :: 0 <= t < |lens| ==> MadeFor(lens[t], tables[t])
    requires 0 < alphaSize <= MAX_ALPHA && forall t :: 0 <= t < |lens| ==> Usable(lens[t], alphaSize)
    ensures Matched(lens, tables)
  {
    UsableCodes(lens, alphaSize);
    hide TablesFor, Lengths, KraftSum, Made, CodingOk;
    forall t | 0 <= t < |lens| ensures MatchedTable(lens[t], tables[t]) {
      var c := tables[t];
      assert MadeFor(lens[t], c);
      MadeTables(lens[t], c.minLen, c.limit, c.base, c.perm);
    }
  }

  /** A written block's header reads as itself, its data coming next. */
  lemma HeaderDecodes(b: seq<Byte>, e: Encoding, size: nat, rest: Bits)
    requires Encodes(b, e, size)
    ensures Writes(e.header.lens, e.header.selectors, 0, e.codes) && HeaderOk(e.header)
    ensures ParseSection(size, BlockBits(b, e, size) + rest)
            == Got(Block(e.header), CodedBits(e.header.lens, e.header.selectors, 0, e.codes) + rest)
  {
    hide CodesBlock, Usable, CodedBits, SectionBits, ParseSection, Writes;
    var data := CodedBits(e.header.lens, e.header.selectors, 0, e.codes);
    BlockHeader.Regroup(SectionBits(Block(e.header)), data, rest);
    SectionRoundTrip(Block(e.header), size, data + rest);
  }

  /** Its data are its codes, and the bits after them are left. */
  lemma DataDecodes(b: seq<Byte>, e: Encoding, size: nat, rest: Bits)
    requires Encodes(b, e, size) && HeaderOk(e.header) && Writes(e.header.lens, e.header.selectors, 0, e.codes)
    ensures DataTail(e.header, CodedBits(e.header.lens, e.header.selectors, 0, e.codes) + rest)
            == Tail(e.codes, Symbol(AlphaSize(e.header.inUse) - 1, rest))
  {
    hide CodesBlock, Usable, Writes, Ready, Matched, MadeFor, HeaderOk;
    HeaderTables(e.header);
    CodesAreSmall(b, e);
    UsedBound(e.header.inUse);
    var tables := CleanTables(e.header.lens);
    TablesReady(e.header, tables);
    TablesMatch(e.header.lens, tables, AlphaSize(e.header.inUse));
    StreamRoundTrip(e.header.lens, tables, e.header.selectors, AlphaSize(e.header.inUse), 0, e.codes, rest);
  }

  /** Its column is that of its sorted rotations. */
  lemma ColumnIs(b: seq<Byte>, e: Encoding, size: nat, rest: Bits)
    requires Encodes(b, e, size) && HeaderOk(e.header)
    ensures |e.ptr| == |b| && (forall i :: 0 <= i < |e.ptr| ==> e.ptr[i] < |b|) && e.header.origPtr < |b|
    ensures InList(e.codes, 256, AlphaSize(e.header.inUse) - 1)
    ensures ColumnFrom(e.header, DataOutcome(e.header, size, e.codes), Symbol(AlphaSize(e.header.inUse) - 1, rest))
            == Got(LastColumn(b, e.ptr), rest)
  {
    hide Writable, Usable, Writes, Undo, Codes;
    ColumnDecodes(b, e, size);
    forall c | 0 <= c < 256 && e.header.inUse[c] ensures ToByte(e.header.inUse)[Used(e.header.inUse, c)] == c {
      UnseqAt(e.header.inUse, 256, c);
    }
    RanksInvert(b, e, ToByte(e.header.inUse));
  }

  lemma EncodedRotations(b: seq<Byte>, e: Encoding, size: nat)
    requires Encodes(b, e, size)
    ensures 0 < |b| <= BLOCK_UNIT * size <= MAX_BLOCK && SortedRotations(b, e.ptr)
    ensures e.header.origPtr < |b| == |e.ptr| && e.ptr[e.header.origPtr] == 0
  {
  }

  /** A written block decodes to its own characters. */
  lemma CharsAre(b: seq<Byte>, e: Encoding, size: nat, rNums: seq<int>)
    requires Encodes(b, e, size) && RandTable(rNums)
    ensures |e.ptr| == |b| && (forall i :: 0 <= i < |e.ptr| ==> e.ptr[i] < |b|) && e.header.origPtr < |b|
    ensures BlockChars(LastColumn(b, e.ptr), e.header.origPtr, false, rNums) == b
  {
    hide Encodes, BlockChars, Unsorted;
    EncodedRotations(b, e, size);
    UnsortInverts(b, e.ptr, e.header.origPtr);
    PlainChars(LastColumn(b, e.ptr), e.header.origPtr, rNums);
  }
}

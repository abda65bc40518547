/** The coded data of a block: symbols under the tables their groups of fifty select. */
module SymbolStream {
  import opened Permutations
  import opened HeaderBits
  import opened RadixPass
  import opened InverseBwt
  import opened Unsort
  import opened BitStream
  import opened CanonicalCodes
  import opened Streams
  import opened BitFeed

  const G_SIZE := 50

  /** One decoding table. */
  datatype Coding = Coding(limit: seq<int>, base: seq<int>, perm: seq<nat>, minLen: nat)

  ghost predicate CodingOk(c: Coding, alphaSize: nat) {
    Confined(c.limit, c.base, c.perm, c.minLen, alphaSize)
  }

  /** Tables and selectors as the block header set them up. */
  ghost predicate Ready(tables: seq<Coding>, selectors: seq<nat>, alphaSize: nat) {
    && (forall t :: 0 <= t < |tables| ==> CodingOk(tables[t], alphaSize))
    && forall i :: 0 <= i < |selectors| ==> selectors[i] < |tables|
  }

  /** The symbol after `pos` others. */
  ghost function FetchAt(tables: seq<Coding>, selectors: seq<nat>, alphaSize: nat, pos: nat, bits: Bits): (f: Fetch)
    requires Ready(tables, selectors, alphaSize)
    ensures f.Symbol? ==> f.sym < alphaSize && |f.rest| < |bits|
  {
    if pos / G_SIZE >= |selectors| then Fetch.Corrupt
    else
      var c := tables[selectors[pos / G_SIZE]];
      assert CodingOk(c, alphaSize);
      FetchConfined(c.limit, c.base, c.perm, c.minLen, alphaSize, bits);
      FetchSymbol(c.limit, c.base, c.perm, c.minLen, bits)
  }

  /** The symbols up to and including eob, and how the reading of them ends. */
  datatype Tail = Tail(codes: seq<nat>, end: Fetch)

  ghost function Stream(tables: seq<Coding>, selectors: seq<nat>, alphaSize: nat, pos: nat, bits: Bits): (t: Tail)
    requires Ready(tables, selectors, alphaSize)
    ensures forall i :: 0 <= i < |t.codes| ==> t.codes[i] < alphaSize
    ensures t.end.Symbol? ==> |t.end.rest| <= |bits|
    decreases |bits|
  {
    var f := FetchAt(tables, selectors, alphaSize, pos, bits);
    if !f.Symbol? then Tail([], f)
    else if f.sym + 1 == alphaSize then Tail([f.sym], f)
    else
      var t := Stream(tables, selectors, alphaSize, pos + 1, f.rest);
      Tail([f.sym] + t.codes, t.end)
  }

  // ---- Symbols from lengths ----

  /** A table made from these lengths. */
  ghost predicate MadeFor(len: seq<Byte>, c: Coding) {
    Made(len, c.minLen, c.limit, c.base, c.perm) && CodingOk(c, |len|)
  }

  /** A table made from the lengths, with nothing left over in it. */
  lemma CleanTable(len: seq<Byte>) returns (c: Coding)
    requires Lengths(len)
    ensures MadeFor(len, c)
  {
    hide First, Last, Below, StableRank, PermTo, Limits, Confined, Longest, Shortest;
    var m, top := Shortest(len), Longest(len);
    ShortestIs(len);
    LongestThere(len);
    var perm := CleanPerm(len);
    var limit := CleanLimit(len, m);
    var base := CleanBase(len, m);
    c := Coding(limit, base, perm, m);
    TablesConfined(len, m, top, limit, base, perm);
  }

  lemma CleanPerm(len: seq<Byte>) returns (perm: seq<nat>)
    requires Lengths(len)
    ensures |perm| == MAX_ALPHA && PermTo(len, perm, Longest(len) + 1, 0)
  {
    hide StableRank, Link;
    perm := seq(MAX_ALPHA, r requires 0 <= r => if r < |len| then Link(len, r) else 0);
    forall k | 0 <= k < |len| ensures StableRank(len, k) < |len| && perm[StableRank(len, k)] == k {
      LinkIs(len, k);
    }
  }

  lemma CleanLimit(len: seq<Byte>, m: nat) returns (limit: seq<int>)
    requires Longest(len) <= LONGEST
    ensures |limit| == MAX_ALPHA && Limits(len, limit, m, Longest(len) + 1)
    ensures forall n :: Longest(len) < n < MAX_CODE_LEN ==> limit[n] == 0
  {
    hide Last;
    limit := seq(MAX_ALPHA, n requires 0 <= n => if m <= n <= Longest(len) then Last(len, n) - 1 else 0);
  }

  lemma CleanBase(len: seq<Byte>, m: nat) returns (base: seq<int>)
    requires Longest(len) <= LONGEST
    ensures |base| == MAX_ALPHA && forall n :: m <= n <= Longest(len) ==> base[n] == First(len, n) - Below(len, n)
    ensures forall n :: Longest(len) < n < MAX_CODE_LEN ==> base[n] == Below(len, n)
  {
    hide First, Below;
    base := seq(MAX_ALPHA, n requires 0 <= n => if m <= n <= Longest(len) then First(len, n) - Below(len, n) else Below(len, n));
  }

  function Shortest(len: seq<Byte>): (n: nat)
    requires len != []
  {
    if |len| == 1 then len[0]
    else
      var m := Shortest(len[..|len| - 1]);
      if len[|len| - 1] < m then len[|len| - 1] else m
  }

  lemma {:induction false} ShortestIs(len: seq<Byte>)
    requires len != []
    ensures Shortest(len) in len && forall i :: 0 <= i < |len| ==> Shortest(len) <= len[i]
  {
    if |len| > 1 {
      var t := len[..|len| - 1];
      ShortestIs(t);
      assert forall i :: 0 <= i < |t| ==> t[i] == len[i];
    }
  }

  /** One of the tables made from the lengths; any other gives the same symbols. */
  ghost function TableOf(len: seq<Byte>): (c: Coding)
    requires Lengths(len)
    ensures MadeFor(len, c)
  {
    assert exists c :: MadeFor(len, c) by {
      var c := CleanTable(len);
    }
    var c :| MadeFor(len, c);
    c
  }

  ghost function CleanTables(lens: seq<seq<Byte>>): (tables: seq<Coding>)
    requires forall t :: 0 <= t < |lens| ==> Lengths(lens[t])
    ensures |tables| == |lens| && forall t :: 0 <= t < |lens| ==> MadeFor(lens[t], tables[t])
  {
    seq(|lens|, t requires 0 <= t < |lens| => TableOf(lens[t]))
  }

  lemma FetchAtSame(lens: seq<seq<Byte>>, tables: seq<Coding>, tables': seq<Coding>, selectors: seq<nat>, alphaSize: nat, pos: nat, bits: Bits)
    requires Ready(tables, selectors, alphaSize) && Ready(tables', selectors, alphaSize) && |lens| == |tables| == |tables'|
    requires forall t :: 0 <= t < |lens| ==> MadeFor(lens[t], tables[t]) && MadeFor(lens[t], tables'[t])
    ensures FetchAt(tables, selectors, alphaSize, pos, bits) == FetchAt(tables', selectors, alphaSize, pos, bits)
  {
    if pos / G_SIZE < |selectors| {
      var t := selectors[pos / G_SIZE];
      assert MadeFor(lens[t], tables[t]) && MadeFor(lens[t], tables'[t]);
      var c, d := tables[t], tables'[t];
      SameShortest(lens[t], c, d);
      FetchSame(lens[t], c.minLen, c.limit, c.base, c.perm, d.limit, d.base, d.perm, bits);
    }
  }

  lemma SameShortest(len: seq<Byte>, c: Coding, d: Coding)
    requires MadeFor(len, c) && MadeFor(len, d)
    ensures c.minLen == d.minLen
  {
  }

  /** What is read depends on the lengths, not on what else the tables may hold. */
  lemma {:induction false} StreamSame(lens: seq<seq<Byte>>, tables: seq<Coding>, tables': seq<Coding>, selectors: seq<nat>,
                                      alphaSize: nat, pos: nat, bits: Bits)
    requires Ready(tables, selectors, alphaSize) && Ready(tables', selectors, alphaSize) && |lens| == |tables| == |tables'|
    requires forall t :: 0 <= t < |lens| ==> MadeFor(lens[t], tables[t]) && MadeFor(lens[t], tables'[t])
    ensures Stream(tables, selectors, alphaSize, pos, bits) == Stream(tables', selectors, alphaSize, pos, bits)
    decreases |bits|
  {
    hide FetchAt, Ready, MadeFor;
    FetchAtSame(lens, tables, tables', selectors, alphaSize, pos, bits);
    var f := FetchAt(tables, selectors, alphaSize, pos, bits);
    if f.Symbol? && f.sym + 1 != alphaSize {
      StreamSame(lens, tables, tables', selectors, alphaSize, pos + 1, f.rest);
    }
  }

  // ---- Writing ----

  /** Codes written one after the other, each in the table of its group. */
  ghost function CodedBits(lens: seq<seq<Byte>>, selectors: seq<nat>, pos: nat, codes: seq<nat>): Bits
    requires Writes(lens, selectors, pos, codes)
    decreases |codes|
  {
    if codes == [] then []
    else
      WritesHead(lens, selectors, pos, codes);
      var len := lens[selectors[pos / G_SIZE]];
      BitsOf(Code(len, codes[0]), len[codes[0]]) + CodedBits(lens, selectors, pos + 1, codes[1..])
  }

  /** There is a table, with a length in it, for every code. */
  ghost predicate Writes(lens: seq<seq<Byte>>, selectors: seq<nat>, pos: nat, codes: seq<nat>) {
    && pos + |codes| <= G_SIZE * |selectors|
    && (forall i :: 0 <= i < |selectors| ==> selectors[i] < |lens|)
    && forall t, i :: 0 <= t < |lens| && 0 <= i < |codes| ==> codes[i] < |lens[t]|
  }

  lemma WritesHead(lens: seq<seq<Byte>>, selectors: seq<nat>, pos: nat, codes: seq<nat>)
    requires Writes(lens, selectors, pos, codes) && codes != []
    ensures pos / G_SIZE < |selectors| && selectors[pos / G_SIZE] < |lens|
    ensures codes[0] < |lens[selectors[pos / G_SIZE]]|
    ensures Writes(lens, selectors, pos + 1, codes[1..])
  {
  }

  /** Every decoding table belongs to its code lengths, which leave no code ambiguous. */
  ghost predicate Matched(lens: seq<seq<Byte>>, tables: seq<Coding>) {
    && |lens| == |tables|
    && forall t :: 0 <= t < |lens| ==> MatchedTable(lens[t], tables[t])
  }

  ghost predicate MatchedTable(len: seq<Byte>, c: Coding) {
    Lengths(len) && KraftSum(len, LONGEST) <= Pow2(LONGEST) && TablesFor(len, c.minLen, c.limit, c.base, c.perm)
  }

  lemma FetchWritten(lens: seq<seq<Byte>>, tables: seq<Coding>, selectors: seq<nat>, alphaSize: nat, pos: nat,
                     codes: seq<nat>, rest: Bits)
    requires Writes(lens, selectors, pos, codes) && codes != [] && Matched(lens, tables) && Ready(tables, selectors, alphaSize)
    requires Writes(lens, selectors, pos + 1, codes[1..])
    ensures FetchAt(tables, selectors, alphaSize, pos, CodedBits(lens, selectors, pos, codes) + rest)
            == Symbol(codes[0], CodedBits(lens, selectors, pos + 1, codes[1..]) + rest)
  {
    WritesHead(lens, selectors, pos, codes);
    var t := selectors[pos / G_SIZE];
    var len, c := lens[t], tables[t];
    assert MatchedTable(len, c);
    hide BitsOf, Code, FetchSymbol, TablesFor, Lengths, KraftSum, Ready, Writes, Matched;
    var word, more := BitsOf(Code(len, codes[0]), len[codes[0]]), CodedBits(lens, selectors, pos + 1, codes[1..]);
    FetchFinds(len, c.minLen, c.limit, c.base, c.perm, codes[0], more + rest);
    assert word + more + rest == word + (more + rest);
  }

  lemma StreamStep(tables: seq<Coding>, selectors: seq<nat>, alphaSize: nat, pos: nat, bits: Bits, sym: nat, rest: Bits)
    requires Ready(tables, selectors, alphaSize) && FetchAt(tables, selectors, alphaSize, pos, bits) == Symbol(sym, rest)
    ensures sym + 1 == alphaSize ==> Stream(tables, selectors, alphaSize, pos, bits) == Tail([sym], Symbol(sym, rest))
    ensures sym + 1 != alphaSize ==>
              var t := Stream(tables, selectors, alphaSize, pos + 1, rest);
              Stream(tables, selectors, alphaSize, pos, bits) == Tail([sym] + t.codes, t.end)
  {
  }

  /** Whatever the grouping and the tables, written codes are read back. */
  lemma {:induction false} StreamRoundTrip(lens: seq<seq<Byte>>, tables: seq<Coding>, selectors: seq<nat>, alphaSize: nat,
                                           pos: nat, codes: seq<nat>, rest: Bits)
    requires Writes(lens, selectors, pos, codes) && Matched(lens, tables) && Ready(tables, selectors, alphaSize)
    requires codes != [] && codes[|codes| - 1] + 1 == alphaSize
    requires forall i :: 0 <= i < |codes| - 1 ==> codes[i] + 1 != alphaSize
    ensures Stream(tables, selectors, alphaSize, pos, CodedBits(lens, selectors, pos, codes) + rest)
            == Tail(codes, Symbol(codes[|codes| - 1], rest))
    decreases |codes|
  {
    hide FetchAt, Writes, Matched, Ready, Stream, CodedBits;
    WritesHead(lens, selectors, pos, codes);
    FetchWritten(lens, tables, selectors, alphaSize, pos, codes, rest);
    var bits, more := CodedBits(lens, selectors, pos, codes) + rest, CodedBits(lens, selectors, pos + 1, codes[1..]) + rest;
    StreamStep(tables, selectors, alphaSize, pos, bits, codes[0], more);
    assert codes == [codes[0]] + codes[1..];
    if |codes| == 1 {
      NothingCoded(lens, selectors, pos + 1, codes[1..]);
      assert more == rest;
    } else {
      StreamRoundTrip(lens, tables, selectors, alphaSize, pos + 1, codes[1..], rest);
    }
  }

  lemma NothingCoded(lens: seq<seq<Byte>>, selectors: seq<nat>, pos: nat, codes: seq<nat>)
    requires Writes(lens, selectors, pos, codes) && codes == []
    ensures CodedBits(lens, selectors, pos, codes) == []
  {
  }

  // ---- Reading ----

  /** Where the reading of a symbol stands: not begun, its shortest form not there yet, or zn bits not enough. */
  datatype Mid = Between | Starting | Growing(zn: nat, zvec: nat)

  /** The symbol that the bits complete. */
  function Completed(c: Coding, mid: Mid, bits: Bits): Fetch
    requires Tables(c.limit, c.base, c.perm) && !mid.Between?
  {
    if mid.Starting? then FetchSymbol(c.limit, c.base, c.perm, c.minLen, bits)
    else if bits == [] then Starved
    else Scan(c.limit, c.base, c.perm, mid.zn, 2 * mid.zvec + if bits[0] then 1 else 0, bits[1..])
  }

  lemma CompletedConfined(c: Coding, mid: Mid, bits: Bits, alphaSize: nat)
    requires CodingOk(c, alphaSize) && !mid.Between? && (mid.Growing? ==> c.minLen <= mid.zn)
    ensures Tables(c.limit, c.base, c.perm) && var f := Completed(c, mid, bits); f.Symbol? ==> f.sym < alphaSize && |f.rest| <= |bits|
  {
    if mid.Starting? {
      FetchConfined(c.limit, c.base, c.perm, c.minLen, alphaSize, bits);
    } else if bits != [] {
      ScanConfined(c.limit, c.base, c.perm, c.minLen, alphaSize, mid.zn, 2 * mid.zvec + if bits[0] then 1 else 0, bits[1..]);
    }
  }

  /** A symbol, and what comes after it from place pos on. */
  ghost function TailOf(tables: seq<Coding>, selectors: seq<nat>, alphaSize: nat, pos: nat, f: Fetch): Tail
    requires Ready(tables, selectors, alphaSize)
  {
    if !f.Symbol? then Tail([], f)
    else if f.sym + 1 == alphaSize then Tail([f.sym], f)
    else
      var t := Stream(tables, selectors, alphaSize, pos, f.rest);
      Tail([f.sym] + t.codes, t.end)
  }

  lemma StreamBegins(tables: seq<Coding>, selectors: seq<nat>, alphaSize: nat, pos: nat, bits: Bits)
    requires Ready(tables, selectors, alphaSize)
    ensures pos / G_SIZE >= |selectors| ==> Stream(tables, selectors, alphaSize, pos, bits) == Tail([], Fetch.Corrupt)
    ensures pos / G_SIZE < |selectors| ==>
              var c := tables[selectors[pos / G_SIZE]];
              CodingOk(c, alphaSize) && Tables(c.limit, c.base, c.perm)
              && Stream(tables, selectors, alphaSize, pos, bits)
                 == TailOf(tables, selectors, alphaSize, pos + 1, Completed(c, Starting, bits))
  {
    if pos / G_SIZE < |selectors| {
      assert CodingOk(tables[selectors[pos / G_SIZE]], alphaSize);
    }
  }

  /** Reads symbols, changing table every fifty, and stopping anywhere in a symbol when the input runs out. */
  class SymbolReader {
    const tables: seq<Coding>
    const selectors: seq<nat>
    ghost const alphaSize: nat
    var groupNo: int
    var groupPos: nat
    var gSel: nat
    var mid: Mid

    ghost predicate Valid()
      reads this
    {
      && Ready(tables, selectors, alphaSize)
      && -1 <= groupNo < |selectors| && groupPos < G_SIZE && (groupNo == -1 ==> groupPos == 0 && mid.Between?)
      && (groupPos > 0 || !mid.Between? ==> gSel == selectors[groupNo])
      && (mid.Growing? ==> tables[gSel].minLen <= mid.zn <= LONGEST + 1)
    }

    /** The place of the symbol after the one being read. */
    ghost function Pos(): nat
      requires Valid()
      reads this
    {
      G_SIZE * (groupNo + 1) - groupPos
    }

    /** What is still to be read. */
    ghost function Coming(feed: Feed): Tail
      requires Valid()
      reads this, feed
    {
      if mid.Between? then Stream(tables, selectors, alphaSize, Pos(), feed.Pending())
      else
        assert CodingOk(tables[gSel], alphaSize);
        TailOf(tables, selectors, alphaSize, Pos(), Completed(tables[gSel], mid, feed.Pending()))
    }

    constructor (codings: seq<Coding>, sels: seq<nat>, ghost size: nat)
      requires Ready(codings, sels, size)
      ensures Valid() && alphaSize == size && tables == codings && selectors == sels && mid.Between? && Pos() == 0
    {
      tables, selectors, alphaSize := codings, sels, size;
      groupNo, groupPos, gSel, mid := -1, 0, 0, Between;
    }

    /** Moves on to the next group's table when a group is used up, and begins a symbol. */
    method Begin(ghost feed: Feed) returns (ok: bool)
      requires Valid() && mid.Between?
      modifies this
      ensures ok ==> Valid() && mid.Starting? && Coming(feed) == old(Coming(feed))
      ensures !ok ==> old(Coming(feed)) == Tail([], Fetch.Corrupt)
    {
      hide Stream, TailOf, Ready;
      ghost var pos := Pos();
      StreamBegins(tables, selectors, alphaSize, pos, feed.Pending());
      if groupPos == 0 {
        groupNo := groupNo + 1;
        if groupNo >= |selectors| {
          return false;
        }
        groupPos := G_SIZE;
        gSel := selectors[groupNo];
      }
      groupPos := groupPos - 1;
      mid := Starting;
      ok := true;
    }

    /** The first number of a symbol, or one bit more of it. */
    method Number(feed: Feed, strm: Strm) returns (ok: bool, zn: nat, zvec: nat)
      requires Valid() && !mid.Between? && feed.Valid() && strm.input <= feed.ahead
      modifies feed, strm`input
      ensures feed.Valid() && TakenOf(old(strm.input), old(feed.ahead), strm.input, feed.ahead)
      ensures var c := tables[gSel];
              ok ==> Tables(c.limit, c.base, c.perm) && c.minLen <= zn <= LONGEST + 1
                     && Completed(c, mid, old(feed.Pending())) == Scan(c.limit, c.base, c.perm, zn, zvec, feed.Pending())
      ensures ok ==> |feed.Pending()| < |old(feed.Pending())|
      ensures !ok ==> feed.Pending() == old(feed.Pending()) && strm.input == []
      ensures !ok && feed.ahead == [] ==> CodingOk(tables[gSel], alphaSize) && Completed(tables[gSel], mid, feed.Pending()) == Starved
    {
      hide Feed.Pending, Scan;
      assert CodingOk(tables[gSel], alphaSize);
      ghost var bits := feed.Pending();
      if mid.Starting? {
        zn := tables[gSel].minLen;
        ok, zvec := feed.GetBits(strm, zn);
      } else {
        var zj;
        ok, zj := feed.GetBits(strm, 1);
        zn, zvec := mid.zn, 2 * mid.zvec + zj;
        if ok {
          OneBitValue(bits);
        }
      }
    }

    /**
     * The next symbol. If the input runs out in the middle of it, what has been read of it is kept, and
     * what is to come is as it was.
     */
    method Next(feed: Feed, strm: Strm) returns (status: Status, sym: nat)
      requires Valid() && feed.Valid() && strm.input <= feed.ahead
      modifies this, feed, strm`input
      ensures feed.Valid() && TakenOf(old(strm.input), old(feed.ahead), strm.input, feed.ahead)
      ensures status != Bad ==> Valid()
      ensures |feed.Pending()| <= |old(feed.Pending())| && (status == Found ==> |feed.Pending()| < |old(feed.Pending())|)
      ensures status == Found ==> old(Coming(feed)).codes != [] && sym == old(Coming(feed)).codes[0] < alphaSize
      ensures status == Found && sym + 1 == alphaSize ==> old(Coming(feed)) == Tail([sym], Symbol(sym, feed.Pending()))
      ensures status == Found && sym + 1 != alphaSize ==>
                Coming(feed) == Tail(old(Coming(feed)).codes[1..], old(Coming(feed)).end)
      ensures status == NoInput ==> Coming(feed) == old(Coming(feed)) && strm.input == []
      ensures status == NoInput && feed.ahead == [] ==> Coming(feed) == Tail([], Starved)
      ensures status == Bad ==> old(Coming(feed)) == Tail([], Fetch.Corrupt)
    {
      hide Feed.Pending, Stream, Scan, Ready, TakenOf;
      ghost var coming := Coming(feed);
      sym := 0;
      TakenNone(strm.input, feed.ahead);
      if mid.Between? {
        var begun := Begin(feed);
        if !begun { return Bad, 0; }
      }
      TableOfGroup();
      var c := tables[gSel];
      ghost var f := Completed(c, mid, feed.Pending());
      CompletedConfined(c, mid, feed.Pending(), alphaSize);
      var ok, zn, zvec := Number(feed, strm);
      ghost var in1, a1 := strm.input, feed.ahead;
      TakenAhead(old(strm.input), old(feed.ahead), in1, a1);
      if !ok { return NoInput, 0; }
      status, sym := Grow(feed, strm, c, zn, zvec, f);
      TakenTwice(old(strm.input), old(feed.ahead), in1, a1, strm.input, feed.ahead);
    }

    lemma TableOfGroup()
      requires Valid() && !mid.Between?
      ensures gSel < |tables| && CodingOk(tables[gSel], alphaSize)
    {
    }

    /** Takes bit after bit until the table knows the symbol. */
    method Grow(feed: Feed, strm: Strm, c: Coding, zn0: nat, zvec0: nat, ghost f: Fetch) returns (status: Status, sym: nat)
      requires Valid() && !mid.Between? && feed.Valid() && strm.input <= feed.ahead && gSel < |tables| && c == tables[gSel]
      requires CodingOk(c, alphaSize) && c.minLen <= zn0 <= LONGEST + 1
      requires Tables(c.limit, c.base, c.perm) && f == Scan(c.limit, c.base, c.perm, zn0, zvec0, feed.Pending())
      modifies this`mid, feed, strm`input
      ensures feed.Valid() && TakenOf(old(strm.input), old(feed.ahead), strm.input, feed.ahead)
      ensures |feed.Pending()| <= |old(feed.Pending())|
      ensures status == Found ==> Valid() && mid.Between? && f == Symbol(sym, feed.Pending())
      ensures status == NoInput ==> Valid() && !mid.Between? && f == Completed(c, mid, feed.Pending()) && strm.input == []
      ensures status == NoInput && feed.ahead == [] ==> f == Starved
      ensures status == Bad ==> f == Fetch.Corrupt
    {
      hide Feed.Pending, Stream, Ready, Completed, TakenOf, Confined, CodingOk, Scan;
      var zn: nat, zvec: nat := zn0, zvec0;
      sym := 0;
      TakenNone(strm.input, feed.ahead);
      while true
        invariant |feed.Pending()| <= |old(feed.Pending())|
        invariant feed.Valid() && zn <= LONGEST + 1 && c.minLen <= zn && strm.input <= feed.ahead
        invariant TakenOf(old(strm.input), old(feed.ahead), strm.input, feed.ahead)
        invariant Scan(c.limit, c.base, c.perm, zn, zvec, feed.Pending()) == f && mid == old(mid)
        decreases LONGEST + 1 - zn
      {
        ScanHere(c, zn, zvec, feed.Pending());
        if zn > LONGEST { return Bad, 0; }
        if zvec <= c.limit[zn] { break; }
        ghost var bits, in0, a0 := feed.Pending(), strm.input, feed.ahead;
        ScanOne(c.limit, c.base, c.perm, zn, zvec, bits);
        zn := zn + 1;
        var ok, zj := feed.GetBits(strm, 1);
        TakenTwice(old(strm.input), old(feed.ahead), in0, a0, strm.input, feed.ahead);
        TakenAhead(in0, a0, strm.input, feed.ahead);
        if !ok {
          mid := Growing(zn, zvec);
          GrowingOn(c, zn, zvec, bits);
          return NoInput, 0;
        }
        zvec := 2 * zvec + zj;
      }
      mid := Between;
      var k := zvec - c.base[zn];
      if k < 0 || k >= MAX_ALPHA { return Bad, 0; }
      status, sym := Found, c.perm[k];
    }
  }

  lemma OneBitValue(bits: Bits)
    requires bits != []
    ensures ValueOf(bits[..1]) == if bits[0] then 1 else 0
  {
    assert bits[..1] == [bits[0]] && [bits[0]][..0] == [] && ValueOf([]) == 0;
  }

  lemma ScanHere(c: Coding, zn: nat, zvec: nat, bits: Bits)
    requires Tables(c.limit, c.base, c.perm)
    ensures zn > LONGEST ==> Scan(c.limit, c.base, c.perm, zn, zvec, bits) == Fetch.Corrupt
    ensures zn <= LONGEST && zvec <= c.limit[zn] ==>
              var k := zvec - c.base[zn];
              Scan(c.limit, c.base, c.perm, zn, zvec, bits)
              == if k < 0 || k >= MAX_ALPHA then Fetch.Corrupt else Symbol(c.perm[k], bits)
  {
  }

  lemma GrowingOn(c: Coding, zn: nat, zvec: nat, bits: Bits)
    requires Tables(c.limit, c.base, c.perm) && 0 < zn <= LONGEST + 1 && zvec > c.limit[zn - 1]
    ensures Completed(c, Growing(zn, zvec), bits) == Scan(c.limit, c.base, c.perm, zn - 1, zvec, bits)
  {
  }
}

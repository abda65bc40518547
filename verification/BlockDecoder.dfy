/** What the decoder does between a block's header, its data, and its first character. */
module BlockDecoder {
  import opened Permutations
  import opened PackedLinks
  import opened InverseBwt
  import opened Unsort
  import opened CanonicalCodes
  import opened MoveToFront
  import opened MtfEncoder
  import opened SymbolStream
  import opened MtfDecoder
  import opened BlockFormat
  import opened BlockHeader
  import opened BlockWriter
  import opened BitFeed
  import opened BlockOutput
  import opened StreamSpec

  /** The byte of each rank. */
  method MakeMapsD(inUse: seq<bool>) returns (toByte: seq<Byte>, nInUse: nat)
    requires |inUse| == 256
    ensures toByte == ToByte(inUse) && nInUse == Used(inUse, 256)
  {
    toByte, nInUse := seq(256, i => 0), 0;
    var i := 0;
    while i < 256
      invariant i <= 256 && |toByte| == 256 && nInUse == Used(inUse, i) <= i
      invariant toByte == Unseq(inUse, i) + seq(256 - nInUse, i => 0)
    {
      if inUse[i] {
        toByte := toByte[nInUse := i];
        nInUse := nInUse + 1;
      }
      i := i + 1;
    }
  }

  /** The decoding table of every group, made from the lengths read. */
  method MakeTables(lens: seq<seq<Byte>>, alphaSize: nat) returns (tables: seq<Coding>)
    requires 0 < alphaSize <= MAX_ALPHA && forall t :: 0 <= t < |lens| ==> TableOk(lens[t], alphaSize)
    ensures |tables| == |lens| && forall t :: 0 <= t < |lens| ==> MadeFor(lens[t], tables[t])
  {
    hide TablesFor, Confined, Made;
    tables := [];
    while |tables| < |lens|
      invariant |tables| <= |lens| && forall t :: 0 <= t < |tables| ==> MadeFor(lens[t], tables[t])
    {
      var len := lens[|tables|];
      assert TableOk(len, alphaSize);
      var minLen, maxLen := Extremes(len);
      var limit, base, perm := new int[MAX_ALPHA](_ => 0), new int[MAX_ALPHA](_ => 0), new nat[MAX_ALPHA](_ => 0);
      CreateDecodeTables(limit, base, perm, len, minLen, maxLen, alphaSize);
      tables := tables + [Coding(limit[..], base[..], perm[..], minLen)];
    }
  }

  /** Sets up the decoding of a block's data. */
  method StartData(h: Header, size: nat, store: array<nat>, unzftab: array<nat>, ghost feed: Feed) returns (d: DataState)
    requires HeaderOk(h) && feed.Valid() && store != unzftab && BLOCK_UNIT * size <= store.Length && unzftab.Length == 256
    modifies unzftab
    ensures fresh(d) && fresh(d.sr) && fresh(d.mtfa) && fresh(d.mtfbase) && d.store == store && d.unzftab == unzftab
    ensures d.Valid(feed) && d.toByte == ToByte(h.inUse) && d.nblockMAX == BLOCK_UNIT * size && d.eob == AlphaSize(h.inUse) - 1
    ensures var t := DataTail(h, feed.Pending()); d.want == DataOutcome(h, size, t.codes) && d.end == t.end
  {
    hide Stream, Ready, MadeFor, Undo, Feed.Pending, Used, ToByte, DataState.Valid, TableOk;
    HeaderTables(h);
    var toByte, nInUse := MakeMapsD(h.inUse);
    var tables := MakeTables(h.lens, nInUse + 2);
    TablesReady(h, tables);
    ghost var clean := CleanTables(h.lens);
    TablesReady(h, clean);
    StreamSame(h.lens, tables, clean, h.selectors, AlphaSize(h.inUse), 0, feed.Pending());
    var sr := new SymbolReader(tables, h.selectors, nInUse + 2);
    d := new DataState(sr, store, unzftab, toByte, nInUse + 1, BLOCK_UNIT * size, feed);
  }

  /** The arrays of the small form, as the decoder has them before the links are built. */
  method SplitStore(store: array<nat>, nblock: nat, ghost l: seq<Byte>) returns (ll16: array<nat>, ll4: array<nat>)
    requires nblock <= store.Length && store[..nblock] == l
    ensures fresh(ll16) && fresh(ll4) && ll16 != ll4 && RankedTo(l, ll16[..], ll4[..], 0)
  {
    hide StableRank;
    ll16, ll4 := new nat[nblock](_ => 0), new nat[(nblock + 1) / 2](_ => 0);
    var i := 0;
    while i < nblock
      invariant i <= nblock && forall k :: 0 <= k < i ==> ll16[k] == l[k]
      invariant forall k :: i <= k < nblock ==> ll16[k] == 0
      invariant forall k :: 0 <= k < ll4.Length ==> ll4[k] == 0
    {
      assert store[i] == l[i];
      ll16[i] := store[i];
      i := i + 1;
    }
  }

  /** What has been decoded is the column, and its characters have been counted. */
  lemma ColumnStored(store: seq<nat>, unzftab: seq<nat>, toByte: seq<Byte>, s: seq<nat>) returns (l: seq<Byte>)
    requires Stored(store, unzftab, toByte, s)
    ensures |toByte| == 256 && l == AsBytes(Chars(toByte, s)) && |l| == |s| <= |store| && store[..|s|] == l
    ensures |unzftab| == 256 && forall c: Byte :: unzftab[c] == multiset(l)[c]
  {
    l := AsBytes(Chars(toByte, s));
    SameCounts(l, Chars(toByte, s));
  }

  lemma {:induction false} SameCounts(l: seq<Byte>, m: seq<nat>)
    requires l == m
    ensures forall c: Byte :: multiset(m)[c] == multiset(l)[c]
  {
    if l != [] {
      SameCounts(l[..|l| - 1], m[..|m| - 1]);
      assert l == l[..|l| - 1] + [l[|l| - 1]];
      assert m == m[..|m| - 1] + [m[|m| - 1]];
    }
  }

  /** Undoes the sort and takes the first character; the column may be any, and come from anywhere. */
  method OpenBlock(size: nat, smallDecompress: bool, rs: Rules, h: Header, nblock: nat, store: array<nat>, unzftab: array<nat>,
                   ghost s: seq<nat>)
    returns (o: OutputState)
    requires store != unzftab && BLOCK_UNIT * size <= store.Length && size <= 9 && RandTable(rs.rNums)
    requires |h.inUse| == 256 && nblock == |s| <= BLOCK_UNIT * size && h.origPtr < nblock
    requires Stored(store[..], unzftab[..], ToByte(h.inUse), s)
    modifies store
    ensures fresh(o) && fresh(o.src) && o.Valid() && o.rule == rs.rule && o.out == [] && o.state_out_len == 0
    ensures o.src.b == BlockChars(AsBytes(Chars(ToByte(h.inUse), s)), h.origPtr, h.randomised == 1, rs.rNums)
    ensures o.src.tt == store || fresh(o.src.tt)
    ensures fresh(o.src.ll16) && fresh(o.src.ll4) && fresh(o.src.cftab)
  {
    hide Stored, FastAt, SmallAt, Packed, Entries, BucketStarts, RankedTo, LinkedTo, ToByte, Chars, BlockChars, CharSource.Valid;
    ghost var l := ColumnStored(store[..], unzftab[..], ToByte(h.inUse), s);
    assert store[..nblock] == store[..][..nblock];
    var src: CharSource;
    var cftab := CumulativeCounts(unzftab, l);
    if smallDecompress {
      var ll16, ll4 := SplitStore(store, nblock, l);
      ghost var cycle := PrepareSmall(ll16, ll4, cftab, h.origPtr, nblock, l);
      src := new CharSource.Small(ll16, ll4, cftab, h.origPtr, nblock, BLOCK_UNIT * size, h.randomised == 1, rs.rNums, l, h.origPtr, cycle);
    } else {
      BuildLinks(store, cftab, nblock, l);
      FastStarts(l, h.origPtr, store[..]);
      src := new CharSource.Fast(store, store[h.origPtr] / 256, nblock, BLOCK_UNIT * size, h.randomised == 1, rs.rNums, l, h.origPtr);
    }
    o := new OutputState(src, rs.rule);
    o.Begin();
  }
}

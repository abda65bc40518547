/** Handing out a decoded block: characters off the links, runs expanded, any number of bytes at a time. */
module BlockOutput {
  import opened Permutations
  import opened PackedLinks
  import opened Unsort
  import opened RunLength
  import opened Streams

  // ---- Randomised blocks ----

  /** The countdown to the next character to be changed, and the place in the table it is taken from. */
  datatype Rand = Rand(toGo: int, pos: nat)

  ghost predicate RandTable(rNums: seq<int>) {
    |rNums| == 512
  }

  function RandNext(rNums: seq<int>, r: Rand): (n: Rand)
    requires |rNums| == 512 && r.pos < 512
    ensures n.pos < 512
  {
    if r.toGo == 0 then Rand(rNums[r.pos] - 1, (r.pos + 1) % 512) else Rand(r.toGo - 1, r.pos)
  }

  /** After n characters. */
  function RandAt(rNums: seq<int>, n: nat): (r: Rand)
    requires |rNums| == 512
    ensures r.pos < 512
  {
    if n == 0 then Rand(0, 0) else RandNext(rNums, RandAt(rNums, n - 1))
  }

  /** A character with its lowest bit changed when it is its turn. */
  function Masked(c: Byte, r: Rand): Byte {
    if r.toGo != 1 then c else if c % 2 == 0 then c + 1 else c - 1
  }

  /** The characters of a block: what its column reads, some of them changed if it is randomised. */
  ghost function BlockChars(l: seq<Byte>, orig: nat, randomised: bool, rNums: seq<int>): (b: seq<Byte>)
    requires orig < |l| && RandTable(rNums)
    ensures |b| == |l|
  {
    seq(|l|, k requires 0 <= k < |l| => BlockChar(l, orig, randomised, rNums, k))
  }

  ghost function BlockChar(l: seq<Byte>, orig: nat, randomised: bool, rNums: seq<int>, k: nat): Byte
    requires orig < |l| && RandTable(rNums)
  {
    if randomised then Masked(CharAt(l, orig, k), RandAt(rNums, k + 1)) else CharAt(l, orig, k)
  }

  // ---- Which characters are changed ----

  /** The sum of the first j intervals, the table being used over and over. */
  function RunningSum(rNums: seq<int>, j: nat): int
    requires |rNums| == 512
  {
    if j == 0 then 0 else RunningSum(rNums, j - 1) + rNums[(j - 1) % 512]
  }

  lemma {:induction false} SumsGrow(rNums: seq<int>, i: nat, j: nat)
    requires |rNums| == 512 && i <= j && forall k :: 0 <= k < 512 ==> rNums[k] >= 1
    ensures RunningSum(rNums, i) <= RunningSum(rNums, j) && (i < j ==> RunningSum(rNums, i) < RunningSum(rNums, j))
    decreases j
  {
    if i < j {
      SumsGrow(rNums, i, j - 1);
    }
  }

  /** The countdown counts to the end of the interval that n is in. */
  lemma {:induction false} RandState(rNums: seq<int>, n: nat) returns (j: nat)
    requires |rNums| == 512 && forall k :: 0 <= k < 512 ==> rNums[k] >= 1
    ensures n <= RunningSum(rNums, j) && (n > 0 ==> j > 0 && RunningSum(rNums, j - 1) < n)
    ensures RandAt(rNums, n) == Rand(RunningSum(rNums, j) - n, j % 512)
  {
    if n == 0 {
      j := 0;
    } else {
      hide RunningSum, RandAt;
      var i := RandState(rNums, n - 1);
      j := if RunningSum(rNums, i) == n - 1 then i + 1 else i;
      RandStep(rNums, n, i);
    }
  }

  /** One character on: in the same interval, or in the next one. */
  lemma RandStep(rNums: seq<int>, n: nat, i: nat)
    requires |rNums| == 512 && n > 0 && RandAt(rNums, n - 1) == Rand(RunningSum(rNums, i) - (n - 1), i % 512)
    ensures RandAt(rNums, n) == if RunningSum(rNums, i) == n - 1 then Rand(RunningSum(rNums, i + 1) - n, (i + 1) % 512)
                                else Rand(RunningSum(rNums, i) - n, i % 512)
    ensures RunningSum(rNums, i + 1) == RunningSum(rNums, i) + rNums[i % 512]
  {
    hide RunningSum;
    NextPlace(i);
    SumOn(rNums, i);
  }

  lemma NextPlace(i: nat)
    ensures (i % 512 + 1) % 512 == (i + 1) % 512
  {
  }

  lemma SumOn(rNums: seq<int>, i: nat)
    requires |rNums| == 512
    ensures RunningSum(rNums, i + 1) == RunningSum(rNums, i) + rNums[i % 512]
  {
  }

  /** Character k is the last but one of an interval of two or more. */
  ghost predicate LastButOne(rNums: seq<int>, k: nat)
    requires |rNums| == 512
  {
    exists j: nat :: RunningSum(rNums, j + 1) == k + 2 && rNums[j % 512] >= 2
  }

  lemma TurnComes(rNums: seq<int>, k: nat)
    requires |rNums| == 512 && forall i :: 0 <= i < 512 ==> rNums[i] >= 1
    ensures RandAt(rNums, k + 1).toGo == 1 <==> LastButOne(rNums, k)
  {
    var j := RandState(rNums, k + 1);
    if RandAt(rNums, k + 1).toGo == 1 {
      assert RunningSum(rNums, j - 1 + 1) == k + 2;
      assert rNums[(j - 1) % 512] >= 2;
    }
    if LastButOne(rNums, k) {
      var i: nat :| RunningSum(rNums, i + 1) == k + 2 && rNums[i % 512] >= 2;
      if i + 1 < j {
        SumsGrow(rNums, i + 1, j - 1);
      } else if j < i + 1 {
        SumsGrow(rNums, j, i);
      }
    }
  }

  /** In a randomised block exactly the last character but one of every interval is changed, in its lowest bit. */
  lemma ChangedCharacters(l: seq<Byte>, orig: nat, rNums: seq<int>, k: nat)
    requires orig < |l| && RandTable(rNums) && k < |l| && forall i :: 0 <= i < 512 ==> rNums[i] >= 1
    ensures var c, d := CharAt(l, orig, k), BlockChars(l, orig, true, rNums)[k];
            if LastButOne(rNums, k) then d / 2 == c / 2 && d != c else d == c
  {
    TurnComes(rNums, k);
  }

  lemma PlainChars(l: seq<Byte>, orig: nat, rNums: seq<int>)
    requires orig < |l| && RandTable(rNums)
    ensures BlockChars(l, orig, false, rNums) == Unsorted(l, orig)
  {
  }

  // ---- Characters ----

  /** The links of one block, in either form, and the place of the next character. */
  class CharSource {
    const smallDecompress: bool
    const tt: array<nat>
    const ll16: array<nat>
    const ll4: array<nat>
    const cftab: array<nat>
    const nblock: nat
    const limit: nat
    const randomised: bool
    const rNums: seq<int>
    var tPos: nat
    var rand: Rand
    ghost const l: seq<Byte>
    ghost const orig: nat
    ghost const b: seq<Byte>
    ghost const cycle: set<nat>
    ghost var delivered: nat

    ghost predicate Valid()
      reads this, tt, ll16, ll4, cftab
    {
      && nblock == |l| <= limit && orig < |l| && RandTable(rNums) && b == BlockChars(l, orig, randomised, rNums)
      && (randomised ==> rand == RandAt(rNums, delivered))
      && if smallDecompress then
           && Packed(ll16[..], ll4[..], nblock) && cftab.Length == 257
           && SmallAt(l, orig, Entries(ll16[..], ll4[..], nblock), cycle, tPos, delivered)
           && BucketStarts(l, cftab[..])
         else
           limit <= tt.Length && FastAt(l, orig, tt[..], tPos, delivered)
    }

    constructor Fast(links: array<nat>, start: nat, n: nat, max: nat, flips: bool, table: seq<int>,
                     ghost column: seq<Byte>, ghost origPtr: nat)
      requires n == |column| <= max <= links.Length && origPtr < |column| && FastAt(column, origPtr, links[..], start, 0)
      requires RandTable(table)
      ensures Valid() && b == BlockChars(column, origPtr, flips, table) && delivered == 0 && !smallDecompress && tt == links && nblock == n
      ensures fresh(ll16) && fresh(ll4) && fresh(cftab) && randomised == flips
    {
      hide SmallAt, FastAt, Packed, Entries, BucketStarts, BlockChars;
      smallDecompress, tt, nblock, limit, tPos := false, links, n, max, start;
      ll16, ll4, cftab := new nat[0], new nat[0], new nat[0];
      randomised, rNums, rand := flips, table, Rand(0, 0);
      l, orig, b, cycle, delivered := column, origPtr, BlockChars(column, origPtr, flips, table), {}, 0;
    }

    constructor Small(low: array<nat>, high: array<nat>, counts: array<nat>, start: nat, n: nat, max: nat, flips: bool, table: seq<int>,
                      ghost column: seq<Byte>, ghost origPtr: nat, ghost reversed: set<nat>)
      requires n == |column| <= max && Packed(low[..], high[..], n) && counts.Length == 257 && origPtr < |column|
      requires SmallAt(column, origPtr, Entries(low[..], high[..], n), reversed, start, 0)
      requires BucketStarts(column, counts[..]) && RandTable(table)
      ensures Valid() && b == BlockChars(column, origPtr, flips, table) && delivered == 0 && smallDecompress && nblock == n
      ensures ll16 == low && ll4 == high && cftab == counts && fresh(tt) && randomised == flips
    {
      hide SmallAt, FastAt, Packed, Entries, BucketStarts, BlockChars;
      smallDecompress, ll16, ll4, cftab, nblock, limit, tPos := true, low, high, counts, n, max, start;
      tt := new nat[0];
      randomised, rNums, rand := flips, table, Rand(0, 0);
      l, orig, b, cycle, delivered := column, origPtr, BlockChars(column, origPtr, flips, table), reversed, 0;
    }

    /** The next character; past the end the links go on. No link leads out of the block. */
    method Get() returns (corrupt: bool, ch: Byte)
      requires Valid()
      modifies this
      ensures Valid() && !corrupt && delivered == old(delivered) + 1
      ensures old(delivered) < |b| ==> ch == b[old(delivered)]
    {
      hide SmallAt, FastAt, Packed, BucketStarts, CharAt;
      if smallDecompress {
        corrupt, ch, tPos := NextSmall(ll16, ll4, cftab, tPos, nblock, limit, delivered, l, orig, cycle);
      } else {
        FastStep(l, orig, tt[..], tPos, delivered);
        corrupt, ch, tPos := GetFast(tt, tPos, limit);
      }
      if randomised {
        rand := RandNext(rNums, rand);
        ch := Masked(ch, rand);
      }
      delivered := delivered + 1;
    }
  }

  /** c, n times, and then t, one c sooner. */
  lemma OneOut(out: seq<Byte>, c: Byte, n: nat, t: Text)
    requires n > 0
    ensures After(out, After(Times(c, n), t)) == After(out + [c], After(Times(c, n - 1), t))
  {
    AfterTwice(out, Times(c, n), t);
    AfterTwice(out + [c], Times(c, n - 1), t);
    assert out + Times(c, n) == out + [c] + Times(c, n - 1);
  }

  /** What a reader that has taken `used` characters and has a run of n still to hand out will come to. */
  ghost function Left(b: seq<Byte>, used: nat, c: Byte, n: nat): Text {
    if 1 <= used <= |b| + 1 then After(Times(c, n), Unrle(b[used - 1..])) else Broken
  }

  lemma RunSplit(b: seq<Byte>, u: nat, n: nat)
    requires u + n <= |b| && 0 < n < 4 && forall i :: u <= i < u + n ==> b[i] == b[u]
    requires u + n == |b| || b[u + n] != b[u]
    ensures Unrle(b[u..]) == After(Times(b[u], n), Unrle(b[u + n..]))
  {
    ShortRun(b[u], n, b[u + n..]);
    assert b[u..] == Times(b[u], n) + b[u + n..];
  }

  /** Four alike at u take the count after them, which must be there. */
  lemma LongRunSplit(b: seq<Byte>, u: nat)
    requires u + 4 <= |b| && b[u + 1] == b[u] && b[u + 2] == b[u] && b[u + 3] == b[u]
    ensures u + 4 < |b| ==> Unrle(b[u..]) == After(Times(b[u], 4 + (b[u + 4] as int)), Unrle(b[u + 5..]))
    ensures u + 4 == |b| ==> Unrle(b[u..]) == Broken
  {
    var s := b[u..];
    assert s[0] == b[u] && s[1] == b[u + 1] && s[2] == b[u + 2] && s[3] == b[u + 3];
    if u + 4 < |b| {
      assert s[4] == b[u + 4] && s[5..] == b[u + 5..];
    }
  }

  /** Handing out `out` and then what is left gives the whole block. */
  ghost predicate OnTrack(b: seq<Byte>, out: seq<Byte>, used: nat, c: Byte, n: nat) {
    After(out, Left(b, used, c, n)) == Unrle(b)
  }

  /** n characters alike from u on are a run by themselves. */
  lemma TakesRun(b: seq<Byte>, out: seq<Byte>, u: nat, c: Byte, n: nat)
    requires OnTrack(b, out, u + 1, c, 0) && u + n <= |b| && 0 < n < 4 && forall i :: u <= i < u + n ==> b[i] == b[u]
    requires u + n == |b| || b[u + n] != b[u]
    ensures OnTrack(b, out, u + n + 1, b[u], n)
  {
    hide Unrle, After;
    RunSplit(b, u, n);
    AfterNothing(Unrle(b[u..]));
    assert Times(c, 0) == [];
  }

  /** Four alike take the count after them; without one the block is broken. */
  lemma TakesLongRun(b: seq<Byte>, out: seq<Byte>, u: nat, c: Byte, n: nat)
    requires OnTrack(b, out, u + 1, c, 0) && u + 4 <= |b| && forall i :: u <= i < u + 4 ==> b[i] == b[u]
    requires u + 4 < |b| ==> n == 4 + (b[u + 4] as int)
    ensures OnTrack(b, out, u + 6, b[u], n)
  {
    hide Unrle;
    LongRunSplit(b, u);
    AfterNothing(Unrle(b[u..]));
    assert Times(c, 0) == [];
  }

  lemma NothingOut(b: seq<Byte>)
    ensures OnTrack(b, [], 1, 0, 0)
  {
    assert b[0..] == b && Times(0, 0) == [];
    AfterNothing(Unrle(b));
  }

  class OutputState {
    const src: CharSource
    const rule: CrcRule
    var k0: Byte
    var nblock_used: nat
    var state_out_len: nat
    var state_out_ch: Byte
    var calculatedBlockCRC: Crc
    ghost var out: seq<Byte>

    ghost predicate Valid()
      reads this, src, src.tt, src.ll16, src.ll4, src.cftab
    {
      && src.Valid() && nblock_used == src.delivered >= 1 && nblock_used <= |src.b| + 2 && src.b != []
      && (nblock_used <= |src.b| ==> k0 == src.b[nblock_used - 1])
      && OnTrack(src.b, out, nblock_used, state_out_ch, state_out_len)
      && calculatedBlockCRC == CrcOf(rule, out)
    }

    constructor (source: CharSource, crcRule: CrcRule)
      ensures src == source && rule == crcRule && out == [] && nblock_used == 0
      ensures state_out_len == 0 && state_out_ch == 0 && calculatedBlockCRC == crcRule.start
    {
      src, rule := source, crcRule;
      state_out_len, state_out_ch, calculatedBlockCRC, out := 0, 0, crcRule.start, [];
      k0, nblock_used := 0, 0;
    }

    /** The first character is taken ahead. */
    method Begin()
      requires src.Valid() && src.delivered == 0 && src.b != [] && nblock_used == 0 && out == []
      requires state_out_len == 0 && state_out_ch == 0 && calculatedBlockCRC == rule.start
      modifies this`k0, this`nblock_used, src
      ensures Valid() && nblock_used == 1
    {
      hide CharSource.Valid, OnTrack;
      NothingOut(src.b);
      var corrupt;
      corrupt, k0 := src.Get();
      nblock_used := nblock_used + 1;
    }

    /** The whole block has been taken and handed out. */
    predicate Done()
      reads this
    {
      nblock_used == src.nblock + 1 && state_out_len == 0
    }

    lemma SourceSize()
      requires src.Valid()
      ensures src.nblock == |src.b| > 0
    {
    }

    /** The block, its characters from u on being taken: n are alike so far. */
    ghost predicate Taking(u: nat, n: nat)
      reads this, src, src.tt, src.ll16, src.ll4, src.cftab
    {
      && src.Valid() && src.delivered == u + n && 0 < n && u + n <= |src.b|
      && k0 == src.b[u] && forall i :: u <= i < u + n ==> src.b[i] == src.b[u]
    }

    /** Takes one character more; stops if the block ends or the character differs. */
    method TakeOne(ghost u: nat, n: nat, ghost c: Byte) returns (stop: bool)
      requires Taking(u, n) && n < 4 && nblock_used == u + n && OnTrack(src.b, out, u + 1, c, 0)
      modifies this`k0, this`nblock_used, this`state_out_len, src
      ensures src.Valid() && nblock_used == src.delivered == u + n + 1
      ensures stop ==> state_out_len == n && OnTrack(src.b, out, nblock_used, src.b[u], n)
      ensures stop && nblock_used <= |src.b| ==> k0 == src.b[nblock_used - 1]
      ensures !stop ==> Taking(u, n + 1)
    {
      hide CharSource.Valid, OnTrack;
      SourceSize();
      state_out_len := n;
      var corrupt, k1 := src.Get();
      nblock_used := nblock_used + 1;
      if nblock_used == src.nblock + 1 {
        TakesRun(src.b, out, u, c, n);
        return true;
      }
      if k1 != k0 {
        TakesRun(src.b, out, u, c, n);
        k0 := k1;
        return true;
      }
      stop := false;
    }

    /** Takes the count after four alike, and the character after it. */
    method TakeCount(ghost u: nat, ghost c: Byte)
      requires Taking(u, 4) && nblock_used == u + 4 && OnTrack(src.b, out, u + 1, c, 0)
      modifies this`k0, this`nblock_used, this`state_out_len, src
      ensures src.Valid() && nblock_used == src.delivered == u + 6
      ensures OnTrack(src.b, out, nblock_used, src.b[u], state_out_len)
      ensures nblock_used <= |src.b| ==> k0 == src.b[nblock_used - 1]
      ensures state_out_len > 0
    {
      hide CharSource.Valid, OnTrack;
      var corrupt, k1 := src.Get();
      nblock_used := nblock_used + 1;
      state_out_len := (k1 as int) + 4;
      TakesLongRun(src.b, out, u, c, state_out_len);
      corrupt, k0 := src.Get();
      nblock_used := nblock_used + 1;
    }

    /** Takes the next run: up to three characters alike, or four and a count. */
    method StartRun()
      requires Valid() && state_out_len == 0 && nblock_used <= src.nblock
      modifies this`k0, this`nblock_used, this`state_out_len, this`state_out_ch, src
      ensures Valid() && state_out_len > 0 && nblock_used > old(nblock_used)
    {
      hide CharSource.Valid, OnTrack;
      SourceSize();
      ghost var u, c := nblock_used - 1, state_out_ch;
      state_out_ch := k0;
      var stop := TakeOne(u, 1, c);
      if !stop {
        stop := TakeOne(u, 2, c);
      }
      if !stop {
        stop := TakeOne(u, 3, c);
      }
      if !stop {
        TakeCount(u, c);
      }
    }

    /** Hands out one character of the pending run. */
    method EmitOne(strm: Strm)
      requires Valid() && state_out_len > 0 && strm.availOut > 0
      modifies this`state_out_len, this`calculatedBlockCRC, this`out, strm`availOut, strm`output
      ensures Valid() && state_out_len == old(state_out_len) - 1 && out == old(out) + [state_out_ch]
      ensures strm.output == old(strm.output) + [state_out_ch] && strm.availOut == old(strm.availOut) - 1
    {
      hide CharSource.Valid, OnTrack, CrcOf, Unrle, After, Left, Passed;
      EmitsOne(src.b, out, nblock_used, state_out_ch, state_out_len);
      CrcAppend(rule, out, state_out_ch);
      strm.output := strm.output + [state_out_ch];
      calculatedBlockCRC := (rule.step)(calculatedBlockCRC, state_out_ch);
      out := out + [state_out_ch];
      state_out_len := state_out_len - 1;
      strm.availOut := strm.availOut - 1;
    }

    /**
     * Expands runs into the room there is, finishing a run before looking further. The last character
     * of a run is handed out apart from the others, as when a run of one is entered directly.
     */
    method UnrleFast(strm: Strm) returns (corrupt: bool)
      requires Valid()
      modifies this`k0, this`nblock_used, this`state_out_len, this`state_out_ch, this`calculatedBlockCRC, this`out, src,
        strm`availOut, strm`output
      ensures Valid() && Passed(old(strm.output), old(out), strm.output, out)
      ensures strm.availOut + |strm.output| == old(strm.availOut + |strm.output|)
      ensures corrupt ==> Unrle(src.b) == Broken
      ensures !corrupt ==> Done() || strm.availOut == 0
    {
      hide CharSource.Valid, OnTrack, Passed;
      PassedNothing(strm.output, out);
      while true
        invariant Valid() && Passed(old(strm.output), old(out), strm.output, out)
        invariant strm.availOut + |strm.output| == old(strm.availOut + |strm.output|)
        decreases |src.b| + 2 - nblock_used
      {
        SourceSize();
        if state_out_len > 0 {
          var full := EmitRun(strm, 1, old(strm.output), old(out));
          if full { return false; }
          PassedOne(old(strm.output), old(out), strm.output, out, state_out_ch);
          EmitOne(strm);
        }
        if nblock_used > src.nblock + 1 {
          EndsBroken(src.b, out, nblock_used, state_out_ch);
          return true;
        }
        if nblock_used == src.nblock + 1 {
          state_out_len := 0;
          return false;
        }
        StartRun();
      }
    }

    /** Hands out the pending run down to `keep` characters; reports if room runs out first. */
    method EmitRun(strm: Strm, keep: nat, ghost output0: seq<Byte>, ghost out0: seq<Byte>) returns (full: bool)
      requires Valid() && keep <= state_out_len && Passed(output0, out0, strm.output, out)
      modifies this`state_out_len, this`calculatedBlockCRC, this`out, strm`availOut, strm`output
      ensures Valid() && Passed(output0, out0, strm.output, out)
      ensures strm.availOut + |strm.output| == old(strm.availOut + |strm.output|)
      ensures if full then strm.availOut == 0 else state_out_len == keep && strm.availOut > 0
    {
      hide CharSource.Valid, OnTrack, Passed;
      while true
        invariant Valid() && keep <= state_out_len && Passed(output0, out0, strm.output, out)
        invariant strm.availOut + |strm.output| == old(strm.availOut + |strm.output|)
        decreases state_out_len
      {
        if strm.availOut == 0 { return true; }
        if state_out_len == keep { return false; }
        PassedOne(output0, out0, strm.output, out, state_out_ch);
        EmitOne(strm);
      }
    }

    /** The same for the small form, which asks for room before anything else. */
    method UnrleSmall(strm: Strm) returns (corrupt: bool)
      requires Valid()
      modifies this`k0, this`nblock_used, this`state_out_len, this`state_out_ch, this`calculatedBlockCRC, this`out, src,
        strm`availOut, strm`output
      ensures Valid() && Passed(old(strm.output), old(out), strm.output, out)
      ensures strm.availOut + |strm.output| == old(strm.availOut + |strm.output|)
      ensures corrupt ==> Unrle(src.b) == Broken
      ensures !corrupt ==> Done() || strm.availOut == 0
    {
      hide CharSource.Valid, OnTrack, Passed;
      PassedNothing(strm.output, out);
      while true
        invariant Valid() && Passed(old(strm.output), old(out), strm.output, out)
        invariant strm.availOut + |strm.output| == old(strm.availOut + |strm.output|)
        decreases |src.b| + 2 - nblock_used
      {
        SourceSize();
        var full := EmitRun(strm, 0, old(strm.output), old(out));
        if full { return false; }
        if nblock_used == src.nblock + 1 { return false; }
        if nblock_used > src.nblock + 1 {
          EndsBroken(src.b, out, nblock_used, state_out_ch);
          return true;
        }
        StartRun();
      }
    }

    /** What has been handed out is a beginning of what the block stands for. */
    lemma OutBegins()
      requires Valid()
      ensures Unrle(src.b).Text? ==> out <= Unrle(src.b).s
    {
      hide CharSource.Valid, Unrle, CrcOf;
    }

    /** A block handed out in full has been handed out right. */
    lemma DoneRight()
      requires Valid() && Done()
      ensures Unrle(src.b) == Text(out)
    {
      SourceSize();
      assert src.b[|src.b|..] == [] && Times(state_out_ch, 0) == [];
      assert out + ([] + []) == out;
    }
  }

  lemma EmitsOne(b: seq<Byte>, out: seq<Byte>, used: nat, c: Byte, n: nat)
    requires OnTrack(b, out, used, c, n) && n > 0
    ensures OnTrack(b, out + [c], used, c, n - 1)
  {
    if 1 <= used <= |b| + 1 {
      OneOut(out, c, n, Unrle(b[used - 1..]));
    }
  }

  lemma EndsBroken(b: seq<Byte>, out: seq<Byte>, used: nat, c: Byte)
    requires OnTrack(b, out, used, c, 0) && used > |b| + 1
    ensures Unrle(b) == Broken
  {
  }
}

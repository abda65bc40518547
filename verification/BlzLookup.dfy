/** Levels 1 to 4 as they run: a table of earlier positions, one or several to a hash. */
module BlzLookup {
  import opened Permutations
  import opened BlzFormat
  import opened BlzTokens
  import opened BlzEncoder
  import opened BlzPack
  import opened BlzChoice

  // ---- One position to a hash ----

  /** Enters the positions up to cur. */
  method UpdateLookup(lookup: array<nat>, x: seq<Byte>, hashPos0: nat, cur: nat) returns (hashPos: nat)
    requires cur + 4 <= |x| && LookupHolds(lookup[..], x, hashPos0) && hashPos0 <= cur
    modifies lookup
    ensures hashPos == cur && LookupHolds(lookup[..], x, cur)
  {
    hide Hash4, Recent;
    hashPos := hashPos0;
    while hashPos < cur
      invariant hashPos0 <= hashPos <= cur && LookupHolds(lookup[..], x, hashPos)
    {
      LookupNext(lookup[..], x, hashPos);
      lookup[Hash4(x, hashPos)] := hashPos;
      hashPos := hashPos + 1;
    }
  }

  /** All that agrees with an earlier position, up to the end of the input. */
  method FullLength(x: seq<Byte>, pos: nat, cur: nat) returns (len: nat)
    requires pos < cur <= |x|
    ensures len == Longest(x, pos, cur)
  {
    hide Agree;
    AgreeNothing(x, pos, cur);
    len := MatchLength(x, pos, cur, 0, |x| - cur);
    CommonIs(x, pos, cur, 0, |x| - cur, len);
  }

  lemma AgreeNothing(x: seq<Byte>, pos: nat, cur: nat)
    requires pos < cur <= |x|
    ensures Agree(x, pos, cur, 0)
  {
  }

  /** The match of cur with the position its hash was last seen at, if there is one. */
  method FindMatch(lookup: array<nat>, x: seq<Byte>, cur: nat) returns (pos: nat, len: nat)
    requires cur + 4 <= |x| && LookupHolds(lookup[..], x, cur)
    ensures (pos, len) == Nearest(x, cur)
  {
    hide Hash4, LookupHolds, Longest;
    LookupAt(lookup[..], x, cur);
    pos := lookup[Hash4(x, cur)];
    len := 0;
    if pos != NO_MATCH {
      len := FullLength(x, pos, cur);
    }
  }

  // ---- Writing what was chosen ----

  /** What has been written spells the input up to cur by the tokens chosen. */
  ghost predicate Going(p: Packed, packer: Packer, x: seq<Byte>, ts: seq<Token>, cur: nat) {
    |x| < NO_MATCH && Written(p, x, ts, cur) && Picked(packer, x, ts, cur)
  }

  lemma GoingStart(packer: Packer, x: seq<Byte>)
    requires 1 < |x| < NO_MATCH
    ensures Going(Start(x[0]), packer, x, [], 1)
  {
    WrittenStart(x);
  }

  lemma UsableMatches(x: seq<Byte>, cur: nat, pos: nat, len: nat)
    requires Usable(x, cur, pos, len) && len >= 4
    ensures TrueMatch(x, cur, pos, len) && pos < cur
  {
  }

  /** Writes the match found if it is worth it, a literal otherwise. */
  method WriteFound(bs: BlzState, packer: Packer, x: seq<Byte>, cur: nat, pos: nat, len: nat, farLimit: nat, ghost ts: seq<Token>)
    returns (cur': nat, ghost ts': seq<Token>)
    requires bs.Valid() && 1 <= cur <= LastMatchPos(|x|) && Going(bs.packed, packer, x, ts, cur)
    requires (pos, len) == MatchAt(packer, x, cur) && farLimit == FarLimit(packer)
    modifies bs
    ensures bs.Valid() && cur < cur' <= |x| && Going(bs.packed, packer, x, ts', cur')
  {
    hide Written, BlzState.Valid, Picked, MatchAt, Usable, FarLimit;
    PickedNext(packer, x, ts, cur);
    if len >= 4 { UsableMatches(x, cur, pos, len); }
    if len > 4 || (len == 4 && cur - pos - 1 < farLimit) {
      ts' := WriteMatch(bs, x, cur, pos, len, ts);
      cur' := cur + len;
    } else {
      ts' := WriteLiteral(bs, x, cur, ts);
      cur' := cur + 1;
    }
  }

  method WriteEnd(bs: BlzState, ghost packer: Packer, x: seq<Byte>, cur: nat, ghost ts: seq<Token>) returns (out: seq<Byte>, ghost ts': seq<Token>)
    requires bs.Valid() && LastMatchPos(|x|) < cur <= |x| && |x| > 1 && Going(bs.packed, packer, x, ts, cur)
    modifies bs
    ensures Parses(x, 1, ts') && Reaches(x, 1, ts', |x|) && Picked(packer, x, ts', |x|) && out == PackedBytes(x, ts')
  {
    hide Written, BlzState.Valid, Picked, PackedBytes, Parses, Reaches;
    ts' := WriteRest(bs, x, cur, ts);
    PickedRest(packer, x, ts, cur, |x| - cur);
    WrittenAll(bs.packed, x, ts');
    out := bs.Finalize();
  }

  // ---- Level 1 ----

  /** Packs x greedily. Whatever the table held, the result spells x by the tokens level 1 chooses. */
  method Pack(x: seq<Byte>, lookup: array<nat>) returns (out: seq<Byte>, ghost ts: seq<Token>)
    requires |x| < NO_MATCH && lookup.Length == LOOKUP_SIZE
    modifies lookup
    ensures |x| > 1 ==> Parses(x, 1, ts) && Reaches(x, 1, ts, |x|) && Picked(Greedy, x, ts, |x|)
    ensures out == PackedBytes(x, ts)
  {
    hide Going, BlzState.Valid, LookupHolds, Picked, Reaches, Parses, MatchAt;
    ts := [];
    if |x| == 0 { return [], ts; }
    if |x| == 1 { return [x[0]], ts; }
    var bs := new BlzState(x[0]);
    InitLookup(lookup);
    if |x| >= 3 { LookupEmpty(lookup[..], x); }
    GoingStart(Greedy, x);
    var cur: nat, hashPos: nat := 1, 0;
    while cur <= LastMatchPos(|x|)
      invariant 1 <= cur <= |x| && hashPos <= cur && bs.Valid() && fresh(bs)
      invariant Going(bs.packed, Greedy, x, ts, cur) && (|x| >= 3 ==> LookupHolds(lookup[..], x, hashPos))
      decreases |x| - cur
    {
      hashPos := UpdateLookup(lookup, x, hashPos, cur);
      var pos, len := FindMatch(lookup, x, cur);
      GreedyMatch(x, cur);
      cur, ts := WriteFound(bs, Greedy, x, cur, pos, len, 0x7E00, ts);
    }
    out, ts := WriteEnd(bs, Greedy, x, cur, ts);
  }

  lemma GreedyMatch(x: seq<Byte>, cur: nat)
    requires cur + 4 <= |x| < NO_MATCH
    ensures MatchAt(Greedy, x, cur) == Nearest(x, cur)
  {
  }

  // ---- Level 2 ----

  /** The match of the next position, if its last byte gives it a chance to be better. */
  method NextLength(x: seq<Byte>, cur: nat, nextPos: nat, len: nat) returns (nextLen: nat)
    requires len > 3 && nextPos <= cur && cur + 1 < |x|
    ensures nextLen == NextLen(x, cur, nextPos, len)
  {
    hide Longest;
    nextLen := 0;
    if len - 1 < |x| - (cur + 1) && x[nextPos + len - 1] == x[cur + 1 + len - 1] {
      nextLen := FullLength(x, nextPos, cur + 1);
    }
  }

  /** Level 2's look ahead. */
  method LookAhead(lookup: array<nat>, x: seq<Byte>, cur: nat, pos0: nat, len0: nat, hashPos0: nat)
    returns (pos: nat, len: nat, hashPos: nat)
    requires LookupHolds(lookup[..], x, hashPos0) && hashPos0 == cur < LastMatchPos(|x|) && |x| < NO_MATCH
    requires len0 > 3 && (pos0, len0) == Nearest(x, cur)
    modifies lookup
    ensures (pos, len) == LazyMatch(x, cur) && hashPos == cur + 1 && LookupHolds(lookup[..], x, hashPos)
  {
    hide Hash4, LookupHolds, Nearest, NextLen, Weigh, Usable;
    pos, len, hashPos := pos0, len0, hashPos0;
    LookupAt(lookup[..], x, cur);
    LookupNext(lookup[..], x, cur);
    lookup[Hash4(x, hashPos)] := hashPos;
    hashPos := hashPos + 1;
    LookupAt(lookup[..], x, cur + 1);
    var nextPos := lookup[Hash4(x, cur + 1)];
    if nextPos != NO_MATCH && nextPos != pos + 1 {
      var nextLen := NextLength(x, cur, nextPos, len);
      var r := Weigh(x, cur, pos, len, nextPos, nextLen);
      pos, len := r.0, r.1;
    }
  }

  /** Level 2. */
  method PackLazy(x: seq<Byte>, lookup: array<nat>) returns (out: seq<Byte>, ghost ts: seq<Token>)
    requires |x| < NO_MATCH && lookup.Length == LOOKUP_SIZE
    modifies lookup
    ensures |x| > 1 ==> Parses(x, 1, ts) && Reaches(x, 1, ts, |x|) && Picked(Lazy, x, ts, |x|)
    ensures out == PackedBytes(x, ts)
  {
    hide Going, BlzState.Valid, LookupHolds, Picked, Reaches, Parses, MatchAt, LazyMatch, Nearest;
    ts := [];
    if |x| == 0 { return [], ts; }
    if |x| == 1 { return [x[0]], ts; }
    var bs := new BlzState(x[0]);
    InitLookup(lookup);
    if |x| >= 3 { LookupEmpty(lookup[..], x); }
    GoingStart(Lazy, x);
    var cur: nat, hashPos: nat := 1, 0;
    while cur <= LastMatchPos(|x|)
      invariant 1 <= cur <= |x| && hashPos <= cur && bs.Valid() && fresh(bs)
      invariant Going(bs.packed, Lazy, x, ts, cur) && (|x| >= 3 ==> LookupHolds(lookup[..], x, hashPos))
      decreases |x| - cur
    {
      hashPos := UpdateLookup(lookup, x, hashPos, cur);
      var pos, len := FindMatch(lookup, x, cur);
      LazyIs(x, cur);
      if len > 3 && cur < LastMatchPos(|x|) {
        pos, len, hashPos := LookAhead(lookup, x, cur, pos, len, hashPos);
      }
      cur, ts := WriteFound(bs, Lazy, x, cur, pos, len, 0x3FE00, ts);
    }
    out, ts := WriteEnd(bs, Lazy, x, cur, ts);
  }

  lemma LazyIs(x: seq<Byte>, cur: nat)
    requires cur + 4 <= |x| < NO_MATCH
    ensures MatchAt(Lazy, x, cur) == LazyMatch(x, cur)
    ensures Nearest(x, cur).1 <= 3 || cur >= LastMatchPos(|x|) ==> LazyMatch(x, cur) == Nearest(x, cur)
  {
  }

  // ---- Buckets of positions ----

  /** A bucket holds the last positions so far with its hash, the latest first. */
  ghost predicate BucketHolds(lookup: seq<nat>, x: seq<Byte>, bound: nat, size: nat, h: nat)
    requires bound + 3 <= |x|
  {
    h * size + size <= |lookup| && forall k :: h * size <= k < h * size + size ==> lookup[k] == Recent(x, h, bound, k - h * size)
  }

  ghost predicate BucketsHold(lookup: seq<nat>, x: seq<Byte>, bound: nat, size: nat) {
    |lookup| == LOOKUP_SIZE * size && bound + 3 <= |x| && forall h :: 0 <= h < LOOKUP_SIZE ==> BucketHolds(lookup, x, bound, size, h)
  }

  lemma {:induction false} MonotoneProduct(a: nat, b: nat, c: nat)
    requires a <= b
    ensures a * c <= b * c
    decreases b - a
  {
    if a < b {
      MonotoneProduct(a, b - 1, c);
    }
  }

  lemma BucketInside(h: nat, bucketSize: nat)
    requires h < LOOKUP_SIZE
    ensures h * bucketSize + bucketSize <= LOOKUP_SIZE * bucketSize
  {
    MonotoneProduct(h + 1, LOOKUP_SIZE, bucketSize);
  }

  lemma NothingInBuckets(lookup: seq<nat>, x: seq<Byte>, size: nat)
    requires |lookup| == LOOKUP_SIZE * size && 3 <= |x| && forall k :: 0 <= k < |lookup| ==> lookup[k] == NO_MATCH
    ensures BucketsHold(lookup, x, 0, size)
  {
    forall h | 0 <= h < LOOKUP_SIZE ensures BucketHolds(lookup, x, 0, size, h) {
      BucketInside(h, size);
    }
  }

  lemma BucketAt(lookup: seq<nat>, x: seq<Byte>, bound: nat, size: nat, h: nat, k: nat)
    requires BucketsHold(lookup, x, bound, size) && h < LOOKUP_SIZE && k < size
    ensures h * size + k < |lookup| && lookup[h * size + k] == Recent(x, h, bound, k)
  {
    hide Recent;
    assert BucketHolds(lookup, x, bound, size, h);
  }

  /** The bucket at b has been moved along, and the others are as they were. */
  ghost predicate MovedAlong(was: seq<nat>, now: seq<nat>, b: nat, size: nat, pos: nat) {
    && |now| == |was| && 0 < size && b + size <= |now| && now[b] == pos
    && (forall k :: b < k < b + size ==> now[k] == was[k - 1])
    && forall k :: 0 <= k < b || b + size <= k < |now| ==> now[k] == was[k]
  }

  lemma BucketsNext(was: seq<nat>, now: seq<nat>, x: seq<Byte>, pos: nat, size: nat)
    requires BucketsHold(was, x, pos, size) && pos + 4 <= |x| && MovedAlong(was, now, Hash4(x, pos) * size, size, pos)
    ensures BucketsHold(now, x, pos + 1, size)
  {
    hide Hash4, MovedAlong, BucketHolds;
    MovedSize(was, now, Hash4(x, pos) * size, size, pos);
    var next := pos + 1;
    forall h | 0 <= h < LOOKUP_SIZE ensures BucketHolds(now, x, next, size, h) {
      OneBucketNext(was, now, x, pos, size, h);
    }
  }

  lemma MovedSize(was: seq<nat>, now: seq<nat>, b: nat, size: nat, pos: nat)
    requires MovedAlong(was, now, b, size, pos)
    ensures |now| == |was|
  {
  }

  lemma OneBucketNext(was: seq<nat>, now: seq<nat>, x: seq<Byte>, pos: nat, size: nat, h: nat)
    requires pos + 4 <= |x| && MovedAlong(was, now, Hash4(x, pos) * size, size, pos)
    requires BucketHolds(was, x, pos, size, h) && h < LOOKUP_SIZE
    ensures BucketHolds(now, x, pos + 1, size, h)
  {
    hide Hash4, MovedAlong, BucketHolds;
    var g := Hash4(x, pos);
    if h == g {
      ThisBucketNext(was, now, x, pos, size);
    } else {
      if h < g {
        MonotoneProduct(h + 1, g, size);
      } else {
        MonotoneProduct(g + 1, h, size);
      }
      OtherBucketNext(was, now, x, pos, size, h, g * size);
    }
  }

  lemma ThisBucketNext(was: seq<nat>, now: seq<nat>, x: seq<Byte>, pos: nat, size: nat)
    requires pos + 4 <= |x| && MovedAlong(was, now, Hash4(x, pos) * size, size, pos)
    requires BucketHolds(was, x, pos, size, Hash4(x, pos))
    ensures BucketHolds(now, x, pos + 1, size, Hash4(x, pos))
  {
    hide Hash4;
    var h := Hash4(x, pos);
    var b := h * size;
    forall k | b <= k < b + size ensures now[k] == Recent(x, h, pos + 1, k - b) {
      assert k > b ==> was[k - 1] == Recent(x, h, pos, k - 1 - b);
    }
  }

  lemma OtherBucketNext(was: seq<nat>, now: seq<nat>, x: seq<Byte>, pos: nat, size: nat, h: nat, b: nat)
    requires pos + 4 <= |x| && MovedAlong(was, now, b, size, pos) && (h * size + size <= b || b + size <= h * size)
    requires BucketHolds(was, x, pos, size, h) && h != Hash4(x, pos)
    ensures BucketHolds(now, x, pos + 1, size, h)
  {
    hide Hash4;
    var c := h * size;
    assert forall k :: c <= k < c + size ==> now[k] == was[k] && was[k] == Recent(x, h, pos, k - c);
  }

  /** Puts a position at the front of its bucket, moving the others along and the last one out. */
  method InsertFront(lookup: array<nat>, x: seq<Byte>, hashPos: nat, bucketSize: nat)
    requires 0 < bucketSize && hashPos + 4 <= |x| && BucketsHold(lookup[..], x, hashPos, bucketSize)
    modifies lookup
    ensures BucketsHold(lookup[..], x, hashPos + 1, bucketSize)
  {
    hide Hash4, BucketsHold;
    ghost var was := lookup[..];
    BucketAt(was, x, hashPos, bucketSize, Hash4(x, hashPos), bucketSize - 1);
    var bucket := Hash4(x, hashPos) * bucketSize;
    var next: nat, i := hashPos, 0;
    while i < bucketSize
      invariant i <= bucketSize && next == (if i == 0 then hashPos else was[bucket + i - 1])
      invariant i > 0 ==> lookup[bucket] == hashPos
      invariant forall k :: bucket < k < bucket + i ==> lookup[k] == was[k - 1]
      invariant forall k :: 0 <= k < bucket || bucket + i <= k < lookup.Length ==> lookup[k] == was[k]
    {
      var tmp := lookup[bucket + i];
      lookup[bucket + i] := next;
      next := tmp;
      i := i + 1;
    }
    BucketsNext(was, lookup[..], x, hashPos, bucketSize);
  }

  /** Looks at one position, which takes the place of the best if its match is better. */
  method Improve(x: seq<Byte>, cur: nat, pos: nat, bestPos: nat, bestLen: nat) returns (better: bool, pos': nat, len': nat)
    requires pos < cur <= |x|
    ensures (pos', len') == Better(x, cur, pos, (bestPos, bestLen)) && (better <==> (pos', len') != (bestPos, bestLen))
  {
    hide Longest;
    var len := 0;
    if bestLen < |x| - cur && x[pos + bestLen] == x[cur + bestLen] {
      len := FullLength(x, pos, cur);
    }
    better := MatchBetter(cur, pos, len, bestPos, bestLen);
    pos', len' := if better then pos else bestPos, if better then len else bestLen;
  }

  lemma BestStep(x: seq<Byte>, cur: nat, size: nat, acceptLen: nat, k: nat, best: (nat, nat))
    requires cur + 4 <= |x| < NO_MATCH && k <= size && Usable(x, cur, best.0, best.1)
    ensures var pos := if k < size then Recent(x, Hash4(x, cur), cur, k) else NO_MATCH;
            if pos == NO_MATCH then BestOf(x, cur, size, acceptLen, k, best) == best
            else
              var best' := Better(x, cur, pos, best);
              Usable(x, cur, best'.0, best'.1)
              && BestOf(x, cur, size, acceptLen, k, best)
                 == if best' != best && best'.1 >= acceptLen then best' else BestOf(x, cur, size, acceptLen, k + 1, best')
  {
    hide Usable, Recent, Better;
  }

  /** The best match among the positions in cur's bucket. */
  method BestInBucket(lookup: array<nat>, x: seq<Byte>, cur: nat, bucketSize: nat, acceptLen: nat)
    returns (bestPos: nat, bestLen: nat)
    requires 0 < bucketSize && cur + 4 <= |x| < NO_MATCH && BucketsHold(lookup[..], x, cur, bucketSize)
    ensures Usable(x, cur, bestPos, bestLen)
    ensures Usable(x, cur, NO_MATCH, 0) && (bestPos, bestLen) == BestOf(x, cur, bucketSize, acceptLen, 0, (NO_MATCH, 0))
  {
    hide Hash4, BucketsHold, Recent, Better, BestOf, Usable;
    bestPos, bestLen := NO_MATCH, 0;
    NothingUsable(x, cur);
    var h := Hash4(x, cur);
    var bucket := h * bucketSize;
    BucketAt(lookup[..], x, cur, bucketSize, h, 0);
    var pos, idx := lookup[bucket], 0;
    BestStep(x, cur, bucketSize, acceptLen, idx, (bestPos, bestLen));
    while pos != NO_MATCH
      invariant idx < bucketSize && pos == Recent(x, h, cur, idx) && Usable(x, cur, bestPos, bestLen)
      invariant BestOf(x, cur, bucketSize, acceptLen, 0, (NO_MATCH, 0)) == BestOf(x, cur, bucketSize, acceptLen, idx, (bestPos, bestLen))
      invariant pos == NO_MATCH ==> BestOf(x, cur, bucketSize, acceptLen, idx, (bestPos, bestLen)) == (bestPos, bestLen)
      decreases bucketSize - idx
    {
      BestStep(x, cur, bucketSize, acceptLen, idx, (bestPos, bestLen));
      var better;
      better, bestPos, bestLen := Improve(x, cur, pos, bestPos, bestLen);
      if better && bestLen >= acceptLen { return; }
      idx := idx + 1;
      BestStep(x, cur, bucketSize, acceptLen, idx, (bestPos, bestLen));
      if idx == bucketSize { return; }
      BucketAt(lookup[..], x, cur, bucketSize, h, idx);
      pos := lookup[bucket + idx];
    }
  }

  lemma NothingUsable(x: seq<Byte>, cur: nat)
    ensures Usable(x, cur, NO_MATCH, 0)
  {
  }

  /** Weighs every match of the next position's bucket against the best one at cur. */
  method LookAheadBucket(lookup: array<nat>, x: seq<Byte>, cur: nat, pos0: nat, len0: nat, bucketSize: nat)
    returns (pos: nat, len: nat)
    requires 0 < bucketSize && cur < LastMatchPos(|x|) && |x| < NO_MATCH && BucketsHold(lookup[..], x, cur + 1, bucketSize)
    requires len0 > 3 && Usable(x, cur, pos0, len0)
    ensures (pos, len) == LookOver(x, cur, bucketSize, 0, (pos0, len0))
  {
    hide Hash4, BucketsHold, Recent, NextLen, Weigh, Usable;
    pos, len := pos0, len0;
    var h := Hash4(x, cur + 1);
    var bucket := h * bucketSize;
    BucketAt(lookup[..], x, cur + 1, bucketSize, h, 0);
    var nextPos, idx := lookup[bucket], 0;
    while nextPos != NO_MATCH
      invariant idx < bucketSize && nextPos == Recent(x, h, cur + 1, idx) && Usable(x, cur, pos, len) && len > 3
      invariant LookOver(x, cur, bucketSize, 0, (pos0, len0)) == LookOver(x, cur, bucketSize, idx, (pos, len))
      decreases bucketSize - idx
    {
      var nextLen := NextLength(x, cur, nextPos, len);
      var r := Weigh(x, cur, pos, len, nextPos, nextLen);
      pos, len := r.0, r.1;
      if len == 0 { return; }
      idx := idx + 1;
      if idx == bucketSize { return; }
      BucketAt(lookup[..], x, cur + 1, bucketSize, h, idx);
      nextPos := lookup[bucket + idx];
    }
  }

  /** Enters the positions up to cur into their buckets. */
  method UpdateBuckets(lookup: array<nat>, x: seq<Byte>, hashPos0: nat, cur: nat, bucketSize: nat) returns (hashPos: nat)
    requires 0 < bucketSize && cur + 4 <= |x| && BucketsHold(lookup[..], x, hashPos0, bucketSize) && hashPos0 <= cur
    modifies lookup
    ensures hashPos == cur && BucketsHold(lookup[..], x, cur, bucketSize)
  {
    hide BucketsHold;
    hashPos := hashPos0;
    while hashPos < cur
      invariant hashPos0 <= hashPos <= cur && BucketsHold(lookup[..], x, hashPos, bucketSize)
    {
      InsertFront(lookup, x, hashPos, bucketSize);
      hashPos := hashPos + 1;
    }
  }

  /** One step of levels 3 and 4: the best match at cur, unless the next position has a better one. */
  method ChooseMatch(lookup: array<nat>, x: seq<Byte>, cur: nat, bucketSize: nat, acceptLen: nat)
    returns (pos: nat, len: nat, hashPos: nat)
    requires 0 < bucketSize && 0 < cur <= LastMatchPos(|x|) && BucketsHold(lookup[..], x, cur, bucketSize) && |x| < NO_MATCH
    modifies lookup
    ensures (pos, len) == MatchAt(Bucketed(bucketSize, acceptLen), x, cur)
    ensures cur <= hashPos <= cur + 1 && BucketsHold(lookup[..], x, hashPos, bucketSize)
  {
    hide BucketsHold, BestOf, LookOver, Usable;
    pos, len := BestInBucket(lookup, x, cur, bucketSize, acceptLen);
    hashPos := cur;
    if len > 3 && len < acceptLen && cur < LastMatchPos(|x|) {
      InsertFront(lookup, x, hashPos, bucketSize);
      hashPos := hashPos + 1;
      pos, len := LookAheadBucket(lookup, x, cur, pos, len, bucketSize);
    }
  }

  /** Levels 3 and 4. */
  method PackHashBucket(x: seq<Byte>, lookup: array<nat>, bucketSize: nat, acceptLen: nat)
    returns (out: seq<Byte>, ghost ts: seq<Token>)
    requires |x| < NO_MATCH && 0 < bucketSize && lookup.Length == LOOKUP_SIZE * bucketSize
    modifies lookup
    ensures |x| > 1 ==> Parses(x, 1, ts) && Reaches(x, 1, ts, |x|) && Picked(Bucketed(bucketSize, acceptLen), x, ts, |x|)
    ensures out == PackedBytes(x, ts)
  {
    hide Going, BlzState.Valid, BucketsHold, Picked, Reaches, Parses, MatchAt;
    ts := [];
    if |x| == 0 { return [], ts; }
    if |x| == 1 { return [x[0]], ts; }
    var bs := new BlzState(x[0]);
    InitLookup(lookup);
    if |x| >= 3 { NothingInBuckets(lookup[..], x, bucketSize); }
    var packer := Bucketed(bucketSize, acceptLen);
    GoingStart(packer, x);
    var cur: nat, hashPos: nat := 1, 0;
    while cur <= LastMatchPos(|x|)
      invariant 1 <= cur <= |x| && hashPos <= cur && bs.Valid() && fresh(bs)
      invariant Going(bs.packed, packer, x, ts, cur) && (|x| >= 3 ==> BucketsHold(lookup[..], x, hashPos, bucketSize))
      decreases |x| - cur
    {
      hashPos := UpdateBuckets(lookup, x, hashPos, cur, bucketSize);
      var pos, len;
      pos, len, hashPos := ChooseMatch(lookup, x, cur, bucketSize, acceptLen);
      cur, ts := WriteFound(bs, packer, x, cur, pos, len, 0x3FE00, ts);
    }
    out, ts := WriteEnd(bs, packer, x, cur, ts);
  }
}

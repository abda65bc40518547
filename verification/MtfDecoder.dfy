/** Decoding the data of a block: zero runs and move-to-front, straight off the symbol stream. */
module MtfDecoder {
  import opened Permutations
  import opened BitStream
  import opened CanonicalCodes
  import opened MoveToFront
  import opened MtfWindows
  import opened SymbolStream
  import opened Streams
  import opened BitFeed

  /** What reading a block comes to, from what its codes stand for and how they end. */
  ghost function Verdict(o: Outcome, end: Fetch): Status {
    match o
    case Done(_) => Found
    case Corrupt => Bad
    case Unfinished => if end == Starved then NoInput else Bad
  }

  /** All codes are places in a list of 256, or eob. */
  lemma StreamFits(tables: seq<Coding>, selectors: seq<nat>, alphaSize: nat, pos: nat, bits: Bits)
    requires Ready(tables, selectors, alphaSize) && 2 <= alphaSize <= MAX_ALPHA
    ensures InList(Stream(tables, selectors, alphaSize, pos, bits).codes, 256, alphaSize - 1)
  {
  }

  // ---- Single steps of Undo ----

  lemma TailFits(codes: seq<nat>, n: nat, eob: nat)
    requires InList(codes, n, eob) && codes != []
    ensures InList(codes[1..], n, eob) && (codes[0] <= n || codes[0] == eob)
  {
  }

  lemma UndoDigit(y: seq<nat>, codes: seq<nat>, eob: nat, es: nat, n: nat, room: nat)
    requires y != [] && InList(codes, |y|, eob) && codes != [] && codes[0] <= RUNB && InList(codes[1..], |y|, eob)
    ensures n >= RUN_LIMIT ==> Undo(y, codes, eob, es, n, room) == Outcome.Corrupt
    ensures n < RUN_LIMIT ==>
              Undo(y, codes, eob, es, n, room)
              == Undo(y, codes[1..], eob, es + (if codes[0] == RUNA then n else 2 * n), 2 * n, room)
  {
    assert codes[0] == RUNA || codes[0] == RUNB;
  }

  /** A finished run can be written out before the symbol after it is looked at. */
  lemma UndoFlush(y: seq<nat>, codes: seq<nat>, eob: nat, es: nat, n: nat, room: nat)
    requires y != [] && InList(codes, |y|, eob) && codes != [] && codes[0] > RUNB
    ensures es > room ==> Undo(y, codes, eob, es, n, room) == Outcome.Corrupt
    ensures es <= room ==>
              Undo(y, codes, eob, es, n, room) == Then(Repeat(y[0], es), Undo(y, codes, eob, 0, 1, room - es))
  {
    if es <= room && codes[0] != eob && es < room {
      TailFits(codes, |y|, eob);
      var o := Undo(Front(y, codes[0] - 1), codes[1..], eob, 0, 1, room - es - 1);
      var one := [y[codes[0] - 1]];
      ThenTwice(Repeat(y[0], es), Repeat(y[0], 0) + one, o);
      assert Repeat(y[0], es) + (Repeat(y[0], 0) + one) == Repeat(y[0], es) + one;
    } else if es <= room && codes[0] == eob {
      assert Repeat(y[0], es) + Repeat(y[0], 0) == Repeat(y[0], es);
    }
  }

  lemma ThenTwice(p: seq<nat>, q: seq<nat>, o: Outcome)
    ensures Then(p, Then(q, o)) == Then(p + q, o)
  {
    if o.Done? {
      assert p + (q + o.block) == p + q + o.block;
    }
  }

  /** The characters themselves, from their ranks. */
  ghost function Chars(toByte: seq<Byte>, s: seq<nat>): (r: seq<nat>)
    requires |toByte| == 256
    ensures |r| == |s|
  {
    seq(|s|, i requires 0 <= i < |s| => if s[i] < 256 then toByte[s[i]] as nat else 0)
  }

  /** The block so far: s decoded, its characters stored and counted. */
  ghost predicate Stored(store: seq<nat>, unzftab: seq<nat>, toByte: seq<Byte>, s: seq<nat>) {
    && |toByte| == 256 && |unzftab| == 256 && |s| <= |store| && store[..|s|] == Chars(toByte, s)
    && forall c :: 0 <= c < 256 ==> unzftab[c] == multiset(Chars(toByte, s))[c]
  }

  lemma StoredStart(store: seq<nat>, unzftab: seq<nat>, toByte: seq<Byte>)
    requires |toByte| == 256 && |unzftab| == 256 && forall c :: 0 <= c < 256 ==> unzftab[c] == 0
    ensures Stored(store, unzftab, toByte, [])
  {
  }

  lemma StoredMore(store: seq<nat>, unzftab: seq<nat>, toByte: seq<Byte>, s: seq<nat>, store': seq<nat>, unzftab': seq<nat>,
                   c: nat, es: nat)
    requires Stored(store, unzftab, toByte, s) && c < 256 && |store'| == |store| && |s| + es <= |store|
    requires forall i :: 0 <= i < |store| ==> store'[i] == if |s| <= i < |s| + es then toByte[c] else store[i]
    requires unzftab' == unzftab[toByte[c] := unzftab[toByte[c]] + es]
    ensures Stored(store', unzftab', toByte, s + Repeat(c, es))
  {
    var t := s + Repeat(c, es);
    assert Chars(toByte, t) == Chars(toByte, s) + Repeat(toByte[c], es);
    RepeatCount(toByte[c], es);
    assert store'[..|t|] == store[..|s|] + Repeat(toByte[c], es);
  }

  lemma {:induction false} RepeatCount(c: nat, n: nat)
    ensures forall x :: multiset(Repeat(c, n))[x] == if x == c then n else 0
  {
    if n > 0 {
      RepeatCount(c, n - 1);
      assert Repeat(c, n) == Repeat(c, n - 1) + [c];
    }
  }

  lemma StoredSize(store: seq<nat>, unzftab: seq<nat>, toByte: seq<Byte>, s: seq<nat>)
    requires Stored(store, unzftab, toByte, s)
    ensures |toByte| == 256 && |unzftab| == 256 && |s| <= |store|
  {
  }

  /** Writes es copies of one character; false if the block has no room for them. */
  method WriteRun(store: array<nat>, unzftab: array<nat>, toByte: seq<Byte>, c: nat, es0: nat, nblock0: nat, nblockMAX: nat,
                  ghost s: seq<nat>)
    returns (ok: bool, nblock: nat)
    requires store != unzftab && nblockMAX <= store.Length && nblock0 == |s| <= nblockMAX && c < 256
    requires Stored(store[..], unzftab[..], toByte, s)
    modifies store, unzftab
    ensures ok == (|s| + es0 <= nblockMAX)
    ensures ok ==> nblock == |s| + es0 && Stored(store[..], unzftab[..], toByte, s + Repeat(c, es0))
  {
    ghost var a0, u0 := store[..], unzftab[..];
    StoredSize(a0, u0, toByte, s);
    hide Stored;
    var uc := toByte[c];
    unzftab[uc] := unzftab[uc] + es0;
    assert unzftab[..] == u0[uc := u0[uc] + es0];
    var es := es0;
    nblock := nblock0;
    while es > 0
      invariant nblock + es == |s| + es0 && |s| <= nblock <= nblockMAX && unzftab[..] == u0[uc := u0[uc] + es0]
      invariant forall i :: 0 <= i < store.Length ==> store[i] == if |s| <= i < nblock then uc else a0[i]
    {
      if nblock >= nblockMAX {
        return false, nblock;
      }
      store[nblock] := uc;
      nblock := nblock + 1;
      es := es - 1;
    }
    StoredMore(a0, u0, toByte, s, store[..], unzftab[..], c, es0);
    ok := true;
  }

  /** The block decoded so far is s, and the list is y; the codes to come finish the block as wanted. */
  ghost predicate Decoding(want: Outcome, s: seq<nat>, y: seq<nat>, codes: seq<nat>, eob: nat, max: nat) {
    && |y| == 256 && (forall i :: 0 <= i < 256 ==> y[i] < 256) && |s| <= max && InList(codes, 256, eob)
    && want == Then(s, Undo(y, codes, eob, 0, 1, max - |s|))
  }

  lemma DecodingParts(want: Outcome, s: seq<nat>, y: seq<nat>, codes: seq<nat>, eob: nat, max: nat)
    requires Decoding(want, s, y, codes, eob, max)
    ensures |y| == 256 && (forall i :: 0 <= i < 256 ==> y[i] < 256) && |s| <= max && InList(codes, 256, eob)
    ensures codes != [] && codes[0] != eob && codes[0] > RUNB ==> 0 < codes[0] <= 256
    ensures codes != [] && codes[0] == eob > RUNB ==> want == Done(s)
    ensures codes != [] && codes[0] != eob && codes[0] > RUNB && |s| == max ==> want == Outcome.Corrupt
  {
    hide Repeat, Front;
    assert codes != [] && codes[0] == eob > RUNB ==> s + Repeat(y[0], 0) == s;
  }

  lemma DecodingSymbol(want: Outcome, s: seq<nat>, y: seq<nat>, codes: seq<nat>, eob: nat, max: nat)
    requires Decoding(want, s, y, codes, eob, max) && codes != [] && codes[0] > RUNB && codes[0] != eob && |s| < max
    ensures 0 < codes[0] <= 256 && |y| == 256
    ensures Decoding(want, s + [y[codes[0] - 1]], Front(y, codes[0] - 1), codes[1..], eob, max)
  {
    TailFits(codes, 256, eob);
    hide Undo, Repeat;
    UndoSymbol(y, codes, eob, 0, max - |s|);
    var k := codes[0] - 1;
    NoRepeat(y[0], [y[k]]);
    ThenTwice(s, [y[k]], Undo(Front(y, k), codes[1..], eob, 0, 1, max - |s| - 1));
    forall i | 0 <= i < 256 ensures Front(y, k)[i] < 256 {
      assert Front(y, k)[i] in Front(y, k);
      FrontKeeps(y, k);
    }
  }

  lemma NoRepeat(c: nat, t: seq<nat>)
    ensures Repeat(c, 0) + t == t && Repeat(c, 1) == [c]
  {
  }

  /** The arrays the decoder works on. */
  ghost predicate Apart(store: array<nat>, unzftab: array<nat>, mtfa: array<nat>, mtfbase: array<nat>) {
    && store != unzftab && store != mtfa && store != mtfbase && unzftab != mtfa && unzftab != mtfbase && mtfa != mtfbase
    && mtfa.Length == MTFA_SIZE && mtfbase.Length == WINDOWS
  }

  /** Decodes one symbol that is neither part of a run nor the end. */
  method DecodeSymbol(store: array<nat>, unzftab: array<nat>, mtfa: array<nat>, mtfbase: array<nat>, toByte: seq<Byte>,
                      sym: nat, nblock: nat, nblockMAX: nat,
                      ghost want: Outcome, ghost s: seq<nat>, ghost y: seq<nat>, ghost codes: seq<nat>, ghost eob: nat)
    returns (ok: bool, ghost s': seq<nat>, ghost y': seq<nat>)
    requires Apart(store, unzftab, mtfa, mtfbase) && nblockMAX <= store.Length && nblock == |s|
    requires Decoding(want, s, y, codes, eob, nblockMAX) && codes != [] && codes[0] == sym > RUNB && sym != eob
    requires Stored(store[..], unzftab[..], toByte, s) && Lists(mtfa[..], mtfbase[..], y) && mtfbase[0] > 0
    modifies store, unzftab, mtfa, mtfbase
    ensures ok == (|s| < nblockMAX)
    ensures !ok ==> want == Outcome.Corrupt
    ensures ok ==> Decoding(want, s', y', codes[1..], eob, nblockMAX) && |s'| == |s| + 1
    ensures ok ==> Stored(store[..], unzftab[..], toByte, s') && Lists(mtfa[..], mtfbase[..], y') && mtfbase[0] > 0
  {
    hide Stored, Lists, Undo;
    s', y' := s, y;
    DecodingParts(want, s, y, codes, eob, nblockMAX);
    if nblock >= nblockMAX {
      return false, s, y;
    }
    DecodingSymbol(want, s, y, codes, eob, nblockMAX);
    ghost var a0, u0 := store[..], unzftab[..];
    StoredSize(a0, u0, toByte, s);
    var uc := TakeToFront(mtfa, mtfbase, sym - 1, y);
    unzftab[toByte[uc]] := unzftab[toByte[uc]] + 1;
    store[nblock] := toByte[uc];
    StoredMore(a0, u0, toByte, s, store[..], unzftab[..], uc, 1);
    NoRepeat(uc, []);
    s', y' := s + [uc], Front(y, sym - 1);
    ok := true;
  }

  method ClearCounts(unzftab: array<nat>)
    requires unzftab.Length == 256
    modifies unzftab
    ensures forall c :: 0 <= c < 256 ==> unzftab[c] == 0
  {
    var i := 0;
    while i <= 255
      invariant i <= 256 && forall k :: 0 <= k < i ==> unzftab[k] == 0
    {
      unzftab[i] := 0;
      i := i + 1;
    }
  }

  lemma DecodingStart(want: Outcome, y: seq<nat>, codes: seq<nat>, eob: nat, max: nat)
    requires |y| == 256 && (forall i :: 0 <= i < 256 ==> y[i] < 256) && InList(codes, 256, eob)
    requires want == Undo(y, codes, eob, 0, 1, max)
    ensures Decoding(want, [], y, codes, eob, max)
  {
    match want
    case Done(b) => assert [] + b == b;
    case _ =>
  }

  // ---- Runs ----

  /** As Decoding, es zeros of a run having been gathered, its next digit counting n. */
  ghost predicate Running(want: Outcome, s: seq<nat>, y: seq<nat>, codes: seq<nat>, eob: nat, es: nat, n: nat, max: nat) {
    && |y| == 256 && (forall i :: 0 <= i < 256 ==> y[i] < 256) && |s| <= max && InList(codes, 256, eob)
    && want == Then(s, Undo(y, codes, eob, es, n, max - |s|))
  }

  lemma RunBegins(want: Outcome, s: seq<nat>, y: seq<nat>, codes: seq<nat>, eob: nat, max: nat)
    ensures Running(want, s, y, codes, eob, 0, 1, max) == Decoding(want, s, y, codes, eob, max)
  {
  }

  lemma RunParts(want: Outcome, s: seq<nat>, y: seq<nat>, codes: seq<nat>, eob: nat, es: nat, n: nat, max: nat, end: Fetch)
    requires Running(want, s, y, codes, eob, es, n, max)
    ensures |y| == 256 && y[0] < 256 && |s| <= max
    ensures codes == [] ==> Verdict(want, end) == if end == Starved then NoInput else Bad
  {
  }

  lemma RunDigit(want: Outcome, s: seq<nat>, y: seq<nat>, codes: seq<nat>, eob: nat, es: nat, n: nat, max: nat)
    requires Running(want, s, y, codes, eob, es, n, max) && codes != [] && codes[0] <= RUNB
    ensures n >= RUN_LIMIT ==> want == Outcome.Corrupt
    ensures n < RUN_LIMIT ==>
              Running(want, s, y, codes[1..], eob, es + (if codes[0] == RUNA then n else 2 * n), 2 * n, max)
  {
    hide Undo;
    TailFits(codes, 256, eob);
    UndoDigit(y, codes, eob, es, n, max - |s|);
  }

  lemma RunEnds(want: Outcome, s: seq<nat>, y: seq<nat>, codes: seq<nat>, eob: nat, es: nat, n: nat, max: nat)
    requires Running(want, s, y, codes, eob, es, n, max) && codes != [] && codes[0] > RUNB
    ensures |s| + es > max ==> want == Outcome.Corrupt
    ensures |s| + es <= max ==> Decoding(want, s + Repeat(y[0], es), y, codes, eob, max)
  {
    hide Undo;
    UndoFlush(y, codes, eob, es, n, max - |s|);
    if |s| + es <= max {
      ThenTwice(s, Repeat(y[0], es), Undo(y, codes, eob, 0, 1, max - |s| - es));
    }
  }

  // ---- The decoder ----

  /** Where the decoding stands between two symbols: in a run with es zeros so far, or not. */
  datatype Where = AtSymbol | InRun(es: nat, N: nat)

  /** Decodes the data of a block from input that comes in pieces. */
  class DataState {
    const sr: SymbolReader
    const store: array<nat>
    const unzftab: array<nat>
    const mtfa: array<nat>
    const mtfbase: array<nat>
    const toByte: seq<Byte>
    const eob: nat
    const nblockMAX: nat
    var nblock: nat
    var at: Where
    ghost const want: Outcome
    ghost const end: Fetch
    ghost var s: seq<nat>
    ghost var y: seq<nat>

    ghost predicate Parts()
      reads this, sr
    {
      && Apart(store, unzftab, mtfa, mtfbase) && nblockMAX <= store.Length && unzftab.Length == 256
      && 2 <= eob && eob + 1 == sr.alphaSize <= MAX_ALPHA && |toByte| == 256
    }

    /** What has been decoded, and the codes to come. */
    ghost predicate Stands(codes: seq<nat>)
      reads this, store, unzftab, mtfa, mtfbase
    {
      && nblock == |s| && Stored(store[..], unzftab[..], toByte, s)
      && mtfbase.Length == WINDOWS && Lists(mtfa[..], mtfbase[..], y) && mtfbase[0] > 0
      && match at
         case AtSymbol => Decoding(want, s, y, codes, eob, nblockMAX)
         case InRun(es, n) => Running(want, s, y, codes, eob, es, n, nblockMAX)
    }

    ghost predicate Valid(feed: Feed)
      reads this, sr, feed, store, unzftab, mtfa, mtfbase
    {
      Parts() && sr.Valid() && feed.Valid() && Stands(sr.Coming(feed).codes) && end == sr.Coming(feed).end
    }

    constructor (reader: SymbolReader, a: array<nat>, u: array<nat>, bytes: seq<Byte>, last: nat, max: nat, ghost feed: Feed)
      requires reader.Valid() && feed.Valid() && 2 <= last && last + 1 == reader.alphaSize <= MAX_ALPHA && |bytes| == 256
      requires a != u && max <= a.Length && u.Length == 256
      modifies u
      ensures Valid(feed) && sr == reader && store == a && unzftab == u && eob == last && nblockMAX == max && toByte == bytes
      ensures fresh(mtfa) && fresh(mtfbase)
      ensures want == Undo(Iota(256), reader.Coming(feed).codes, last, 0, 1, max) && end == reader.Coming(feed).end
    {
      hide Stored, Lists, Undo, Decoding, Stream, TailOf, Completed, Ready, Feed.Pending, InList;
      ghost var tail := reader.Coming(feed);
      ComingFits(reader, feed);
      FitsInList(tail.codes, last);
      sr, store, unzftab, toByte, eob, nblockMAX := reader, a, u, bytes, last, max;
      mtfa, mtfbase := new nat[MTFA_SIZE](_ => 0), new nat[WINDOWS](_ => 0);
      want, end := Undo(Iota(256), tail.codes, last, 0, 1, max), tail.end;
      nblock, at, s, y := 0, AtSymbol, [], Iota(256);
      new;
      ClearCounts(unzftab);
      InitWindows(mtfa, mtfbase);
      DecodingStart(want, y, tail.codes, eob, nblockMAX);
      StoredStart(store[..], unzftab[..], toByte);
    }

    /** One digit of a run. */
    method TakeDigit(sym: nat, ghost codes: seq<nat>) returns (ok: bool)
      requires Parts() && Stands(codes) && codes != [] && codes[0] == sym <= RUNB
      modifies this`at
      ensures ok ==> Stands(codes[1..])
      ensures !ok ==> want == Outcome.Corrupt
    {
      hide Stored, Lists, Decoding, Running, Undo;
      RunBegins(want, s, y, codes, eob, nblockMAX);
      var es, N := if at.InRun? then at.es else 0, if at.InRun? then at.N else 1;
      RunDigit(want, s, y, codes, eob, es, N, nblockMAX);
      if N >= RUN_LIMIT {
        return false;
      }
      at := InRun(if sym == RUNA then es + (0 + 1) * N else es + (1 + 1) * N, N * 2);
      ok := true;
    }

    /** The run, if there is one, is over. */
    method FinishRun(ghost codes: seq<nat>) returns (ok: bool)
      requires Parts() && Stands(codes) && codes != [] && codes[0] > RUNB
      modifies this`at, this`nblock, this`s, store, unzftab
      ensures ok ==> Stands(codes) && at == AtSymbol
      ensures !ok ==> want == Outcome.Corrupt
    {
      if at == AtSymbol {
        return true;
      }
      hide Stored, Lists, Decoding, Running, Undo;
      RunParts(want, s, y, codes, eob, at.es, at.N, nblockMAX, end);
      RunEnds(want, s, y, codes, eob, at.es, at.N, nblockMAX);
      ListsAt(mtfa[..], mtfbase[..], y, 0);
      ok, nblock := WriteRun(store, unzftab, toByte, mtfa[mtfbase[0]], at.es, nblock, nblockMAX, s);
      if ok {
        s := s + Repeat(y[0], at.es);
        at := AtSymbol;
      }
    }

    /** Takes one symbol: a digit, the end, or a place in the list. */
    method Take(sym: nat, ghost codes: seq<nat>) returns (status: Status)
      requires Parts() && Stands(codes) && codes != [] && codes[0] == sym < sr.alphaSize
      modifies this`at, this`nblock, this`s, this`y, store, unzftab, mtfa, mtfbase
      ensures status == Found ==> sym == eob && want == Done(s) && nblock == |s| <= nblockMAX && Stored(store[..], unzftab[..], toByte, s)
      ensures status == Bad ==> want == Outcome.Corrupt
      ensures status == NoInput ==> sym != eob && Stands(codes[1..])
    {
      hide Stored, Lists, Undo, Decoding, Running;
      if sym == RUNA || sym == RUNB {
        var fits := TakeDigit(sym, codes);
        return if fits then NoInput else Bad;
      }
      var ok := FinishRun(codes);
      if !ok {
        return Bad;
      }
      DecodingParts(want, s, y, codes, eob, nblockMAX);
      if sym == eob {
        return Found;
      }
      ok, s, y := DecodeSymbol(store, unzftab, mtfa, mtfbase, toByte, sym, nblock, nblockMAX, want, s, y, codes, eob);
      if !ok {
        return Bad;
      }
      nblock := nblock + 1;
      status := NoInput;
    }

    /**
     * Decodes as far as the input goes. However it is cut, what is stored in the end is what the codes of the
     * whole stand for, or their failure is reported; if the input runs out first, nothing is lost.
     */
    method Resume(feed: Feed, strm: Strm) returns (status: Status)
      requires Valid(feed) && strm.input <= feed.ahead
      modifies this`at, this`nblock, this`s, this`y, sr, store, unzftab, mtfa, mtfbase, feed, strm`input
      ensures feed.Valid() && TakenOf(old(strm.input), old(feed.ahead), strm.input, feed.ahead)
      ensures status == Found ==> want == Done(s) && nblock == |s| <= nblockMAX && Stored(store[..], unzftab[..], toByte, s)
      ensures status == Found ==> end == Symbol(eob, feed.Pending())
      ensures |feed.Pending()| <= |old(feed.Pending())| && (status == Found ==> |feed.Pending()| < |old(feed.Pending())|)
      ensures status == Bad ==> Verdict(want, end) == Bad
      ensures status == NoInput ==> Valid(feed) && strm.input == [] && (feed.ahead == [] ==> Verdict(want, end) == NoInput)
    {
      hide Stored, Lists, Undo, Decoding, Running, TakenOf, Feed.Pending, Stream, TailOf, Completed, Ready, Apart;
      TakenNone(strm.input, feed.ahead);
      while true
        invariant |feed.Pending()| <= |old(feed.Pending())|
        invariant Valid(feed) && strm.input <= feed.ahead && TakenOf(old(strm.input), old(feed.ahead), strm.input, feed.ahead)
        decreases |sr.Coming(feed).codes|
      {
        ghost var coming, in0, a0 := sr.Coming(feed), strm.input, feed.ahead;
        var sym;
        status, sym := sr.Next(feed, strm);
        TakenTwice(old(strm.input), old(feed.ahead), in0, a0, strm.input, feed.ahead);
        TakenAhead(in0, a0, strm.input, feed.ahead);
        if status != Found {
          NothingToCome(coming.codes);
          return;
        }
        status := Take(sym, coming.codes);
        if status != NoInput {
          return;
        }
      }
    }

    lemma NothingToCome(codes: seq<nat>)
      requires Stands(codes)
      ensures codes == [] ==> Verdict(want, end) == if end == Starved then NoInput else Bad
    {
      hide Stored, Lists, Undo;
      RunBegins(want, s, y, codes, eob, nblockMAX);
      RunParts(want, s, y, codes, eob, if at.InRun? then at.es else 0, if at.InRun? then at.N else 1, nblockMAX, end);
    }
  }

  lemma FitsInList(codes: seq<nat>, eob: nat)
    requires InList(codes, 256, eob)
    ensures forall i :: 0 <= i < |codes| ==> codes[i] <= |Iota(256)| || codes[i] == eob
  {
  }

  lemma ComingFits(sr: SymbolReader, feed: Feed)
    requires sr.Valid() && sr.alphaSize <= MAX_ALPHA && 2 <= sr.alphaSize
    ensures InList(sr.Coming(feed).codes, 256, sr.alphaSize - 1)
  {
    hide Stream, Completed, Feed.Pending;
    if !sr.mid.Between? {
      sr.TableOfGroup();
      CompletedConfined(sr.tables[sr.gSel], sr.mid, feed.Pending(), sr.alphaSize);
    }
  }
}

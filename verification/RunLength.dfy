/** The run-length code applied before sorting: runs of four and more carry a count. */
module RunLength {
  import opened Permutations

  datatype Run = Run(ch: Byte, len: nat)

  const LONGEST_RUN := 255

  function Times(c: Byte, n: nat): (r: seq<Byte>)
    ensures |r| == n && forall i :: 0 <= i < n ==> r[i] == c
  {
    seq(n, i => c)
  }

  /** A run as it stands in the block. */
  function Pair(r: Run): (p: seq<Byte>)
    requires 1 <= r.len <= LONGEST_RUN
    ensures 1 <= |p| <= 5 && p[0] == r.ch
  {
    if r.len < 4 then Times(r.ch, r.len) else Times(r.ch, 4) + [r.len - 4]
  }

  /** Runs of 1 to 255; a run is as long as it can be. */
  ghost predicate RunsOk(runs: seq<Run>) {
    && (forall i :: 0 <= i < |runs| ==> 1 <= runs[i].len <= LONGEST_RUN)
    && forall i :: 0 <= i < |runs| - 1 ==> runs[i].ch != runs[i + 1].ch || runs[i].len == LONGEST_RUN
  }

  function Pairs(runs: seq<Run>): seq<Byte>
    requires RunsOk(runs)
  {
    if runs == [] then [] else RunsTail(runs); Pair(runs[0]) + Pairs(runs[1..])
  }

  function Expand(runs: seq<Run>): seq<Byte> {
    if runs == [] then [] else Times(runs[0].ch, runs[0].len) + Expand(runs[1..])
  }

  lemma RunsTail(runs: seq<Run>)
    requires RunsOk(runs) && runs != []
    ensures 1 <= runs[0].len <= LONGEST_RUN && RunsOk(runs[1..])
  {
  }

  datatype Text = Text(s: seq<Byte>) | Broken

  function After(p: seq<Byte>, t: Text): Text {
    match t
    case Text(s) => Text(p + s)
    case Broken => Broken
  }

  predicate FourAlike(s: seq<Byte>) {
    |s| >= 4 && s[0] == s[1] == s[2] == s[3]
  }

  /** What a block stands for: four equal characters are followed by the count of further ones. */
  function Unrle(s: seq<Byte>): Text
    decreases |s|
  {
    if s == [] then Text([])
    else if !FourAlike(s) then After([s[0]], Unrle(s[1..]))
    else if |s| < 5 then Broken
    else After(Times(s[0], 4 + (s[4] as int)), Unrle(s[5..]))
  }

  lemma AfterTwice(p: seq<Byte>, q: seq<Byte>, t: Text)
    ensures After(p, After(q, t)) == After(p + q, t)
  {
    if t.Text? {
      assert p + (q + t.s) == p + q + t.s;
    }
  }

  /** A short run is read character by character. */
  lemma {:induction false} ShortRun(c: Byte, n: nat, rest: seq<Byte>)
    requires n < 4 && (rest == [] || rest[0] != c)
    ensures Unrle(Times(c, n) + rest) == After(Times(c, n), Unrle(rest))
  {
    if n == 0 {
      assert Times(c, n) + rest == rest;
      AfterNothing(Unrle(rest));
    } else {
      ShortRun(c, n - 1, rest);
      var s := Times(c, n) + rest;
      assert s[1..] == Times(c, n - 1) + rest;
      assert s[n..] == rest;
      assert !FourAlike(s);
      AfterTwice([c], Times(c, n - 1), Unrle(rest));
      assert Times(c, n) == [c] + Times(c, n - 1);
    }
  }

  lemma AfterNothing(t: Text)
    ensures After([], t) == t
  {
    if t.Text? {
      assert [] + t.s == t.s;
    }
  }

  lemma OneRun(r: Run, rest: seq<Byte>)
    requires 1 <= r.len <= LONGEST_RUN && (rest == [] || rest[0] != r.ch || r.len == LONGEST_RUN)
    ensures Unrle(Pair(r) + rest) == After(Times(r.ch, r.len), Unrle(rest))
  {
    if r.len < 4 {
      ShortRun(r.ch, r.len, rest);
    } else {
      var s := Pair(r) + rest;
      assert s[5..] == rest && FourAlike(s) && s[4] == r.len - 4;
    }
  }

  /** Decoding what the runs were written as gives the text they came from. */
  lemma {:induction false} UnrlePairs(runs: seq<Run>)
    requires RunsOk(runs)
    ensures Unrle(Pairs(runs)) == Text(Expand(runs))
  {
    if runs != [] {
      RunsTail(runs);
      UnrlePairs(runs[1..]);
      var rest := Pairs(runs[1..]);
      if |runs| > 1 {
        RunsTail(runs[1..]);
        assert rest[0] == runs[1].ch;
      }
      OneRun(runs[0], rest);
    }
  }

  lemma {:induction false} PairsAppend(runs: seq<Run>, r: Run)
    requires RunsOk(runs + [r])
    ensures 1 <= r.len <= LONGEST_RUN && RunsOk(runs)
    ensures Pairs(runs + [r]) == Pairs(runs) + Pair(r)
    ensures Expand(runs + [r]) == Expand(runs) + Times(r.ch, r.len)
  {
    var all := runs + [r];
    assert all[|runs|] == r;
    if runs == [] {
      assert all[1..] == [];
      assert Pairs(all) == Pair(r) + [] && Expand(all) == Times(r.ch, r.len) + [];
    } else {
      RunsInit(runs, r);
      assert all[1..] == runs[1..] + [r] && all[0] == runs[0];
      RunsTail(all);
      RunsTail(runs);
      PairsAppend(runs[1..], r);
      AppendParts(Pair(runs[0]), Pairs(runs[1..]), Pair(r));
      AppendParts(Times(runs[0].ch, runs[0].len), Expand(runs[1..]), Times(r.ch, r.len));
    }
  }

  lemma RunsInit(runs: seq<Run>, r: Run)
    requires RunsOk(runs + [r])
    ensures RunsOk(runs)
  {
    var all := runs + [r];
    assert forall i :: 0 <= i < |runs| ==> all[i] == runs[i];
  }

  lemma AppendParts<T>(a: seq<T>, b: seq<T>, c: seq<T>)
    ensures a + (b + c) == a + b + c
  {
  }

  // ---- The run being gathered ----

  const NO_CHAR := 256

  ghost predicate PendingOk(ch: nat, len: nat) {
    if ch < 256 then 1 <= len <= LONGEST_RUN else ch == NO_CHAR && len == 0
  }

  /** The text of the pending run. */
  function PendingText(ch: nat, len: nat): seq<Byte> {
    if ch < 256 then Times(ch, len) else []
  }

  /** The pending run does not continue the last run written. */
  ghost predicate Follows(runs: seq<Run>, ch: nat) {
    runs == [] || ch >= 256 || runs[|runs| - 1].ch != ch || runs[|runs| - 1].len == LONGEST_RUN
  }

  /** The pending run is written out and another one begins. */
  lemma WritePending(runs: seq<Run>, ch: Byte, len: nat, next: nat)
    requires RunsOk(runs) && 1 <= len <= LONGEST_RUN && Follows(runs, ch)
    requires next != ch || len == LONGEST_RUN
    ensures RunsOk(runs + [Run(ch, len)]) && Follows(runs + [Run(ch, len)], next)
    ensures Pairs(runs + [Run(ch, len)]) == Pairs(runs) + Pair(Run(ch, len))
    ensures Expand(runs + [Run(ch, len)]) == Expand(runs) + PendingText(ch, len)
  {
    var all := runs + [Run(ch, len)];
    forall i | 0 <= i < |all| - 1 ensures all[i].ch != all[i + 1].ch || all[i].len == LONGEST_RUN {
      if i < |runs| - 1 {
        assert runs[i].ch != runs[i + 1].ch || runs[i].len == LONGEST_RUN;
      }
    }
    PairsAppend(runs, Run(ch, len));
  }

  /** One more character, in the pending run or in a new one. */
  lemma OneMorePending(ch: nat, len: nat, c: Byte)
    requires PendingOk(ch, len)
    ensures ch == c ==> PendingText(ch, len + 1) == PendingText(ch, len) + [c]
    ensures PendingText(c, 1) == [c]
  {
  }

  // ---- Checksums, as a fold over characters and over blocks ----

  type Crc = s: seq<Byte> | |s| == 4 witness [0, 0, 0, 0]

  /** How checksums start, take a character, end, and are joined from block to block. */
  datatype CrcRule = CrcRule(start: Crc, step: (Crc, Byte) -> Crc, finish: Crc -> Crc, join: (Crc, Crc) -> Crc)

  function CrcOf(rule: CrcRule, s: seq<Byte>): Crc {
    if s == [] then rule.start else (rule.step)(CrcOf(rule, s[..|s| - 1]), s[|s| - 1])
  }

  lemma CrcAppend(rule: CrcRule, s: seq<Byte>, c: Byte)
    ensures CrcOf(rule, s + [c]) == (rule.step)(CrcOf(rule, s), c)
  {
    assert (s + [c])[..|s|] == s;
  }

  /** What a block stands for, when it stands for something. */
  function TextOf(b: seq<Byte>): seq<Byte> {
    match Unrle(b)
    case Text(s) => s
    case Broken => []
  }

  /** The text of several blocks. */
  function TextsOf(blocks: seq<seq<Byte>>): seq<Byte> {
    if blocks == [] then [] else TextsOf(blocks[..|blocks| - 1]) + TextOf(blocks[|blocks| - 1])
  }

  function Joined(rule: CrcRule, blocks: seq<seq<Byte>>): Crc {
    if blocks == [] then [0, 0, 0, 0]
    else (rule.join)(Joined(rule, blocks[..|blocks| - 1]), (rule.finish)(CrcOf(rule, TextOf(blocks[|blocks| - 1]))))
  }
}

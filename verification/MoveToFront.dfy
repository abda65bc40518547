/** The move-to-front list and the zero-run code over it, both directions as functions. */
module MoveToFront {

  const RUNA: nat := 0
  const RUNB: nat := 1
  const RUN_LIMIT := 2 * 1024 * 1024

  /** y with its k-th entry moved to the front. */
  function Front(y: seq<nat>, k: nat): (r: seq<nat>)
    requires k < |y|
    ensures |r| == |y| && r[0] == y[k]
    ensures forall i :: 1 <= i <= k ==> r[i] == y[i - 1]
    ensures forall i :: k < i < |y| ==> r[i] == y[i]
  {
    [y[k]] + y[..k] + y[k + 1..]
  }

  /** Where c stands in y. */
  function IndexOf(y: seq<nat>, c: nat): (k: nat)
    requires c in y
    ensures k < |y| && y[k] == c && c !in y[..k]
  {
    if y[0] == c then 0
    else
      var k := 1 + IndexOf(y[1..], c);
      assert y[..k] == [y[0]] + y[1..][..k - 1];
      k
  }

  lemma IndexUnique(y: seq<nat>, c: nat, k: nat)
    requires k < |y| && y[k] == c && c !in y[..k]
    ensures c in y && IndexOf(y, c) == k
  {
  }

  lemma FrontKeeps(y: seq<nat>, k: nat)
    requires k < |y|
    ensures multiset(Front(y, k)) == multiset(y)
    ensures forall c :: c in Front(y, k) <==> c in y
  {
    assert y == y[..k] + [y[k]] + y[k + 1..];
    assert forall c :: c in Front(y, k) <==> c in multiset(Front(y, k));
    assert forall c :: c in y <==> c in multiset(y);
  }

  /** z written in bijective base 2, lowest digit first: RUNA is a one, RUNB a two. */
  function RunCode(z: nat): (r: seq<nat>)
    ensures |r| <= z && forall i :: 0 <= i < |r| ==> r[i] <= RUNB
  {
    if z == 0 then [] else [(z - 1) % 2] + RunCode((z - 1) / 2)
  }

  ghost predicate Covers(y: seq<nat>, s: seq<nat>) {
    y != [] && forall c :: c in s ==> c in y
  }

  lemma CoversStep(y: seq<nat>, s: seq<nat>)
    requires Covers(y, s) && s != []
    ensures s[0] in y && Covers(y, s[1..]) && Covers(Front(y, IndexOf(y, s[0])), s[1..])
  {
    FrontKeeps(y, IndexOf(y, s[0]));
    assert forall c :: c in s[1..] ==> c in s;
  }

  /** The codes for s after z zeros not yet sent, ending with `eob`. */
  ghost function Codes(y: seq<nat>, s: seq<nat>, z: nat, eob: nat): seq<nat>
    requires Covers(y, s)
    decreases |s|
  {
    if s == [] then RunCode(z) + [eob]
    else
      CoversStep(y, s);
      if s[0] == y[0] then Codes(y, s[1..], z + 1, eob)
      else
        var k := IndexOf(y, s[0]);
        RunCode(z) + [k + 1] + Codes(Front(y, k), s[1..], 0, eob)
  }

  // ---- Decoding ----

  datatype Outcome = Done(block: seq<nat>) | Corrupt | Unfinished

  function Then(prefix: seq<nat>, o: Outcome): Outcome {
    match o
    case Done(s) => Done(prefix + s)
    case _ => o
  }

  function Repeat(c: nat, n: nat): (r: seq<nat>)
    ensures |r| == n && forall i :: 0 <= i < n ==> r[i] == c
  {
    seq(n, i => c)
  }

  /**
   * What a list of codes stands for: es zeros of a run are gathered so far, n is the weight of its
   * next digit (1 outside runs), and room entries of the block are left.
   */
  function Undo(y: seq<nat>, codes: seq<nat>, eob: nat, es: nat, n: nat, room: nat): Outcome
    requires forall i :: 0 <= i < |codes| ==> codes[i] <= |y| || codes[i] == eob
    requires y != []
    decreases |codes|
  {
    if codes == [] then Unfinished
    else
      var c := codes[0];
      if c <= RUNB then
        if n >= RUN_LIMIT then Corrupt else Undo(y, codes[1..], eob, es + (1 + c) * n, 2 * n, room)
      else if es > room then Corrupt
      else if c == eob then Done(Repeat(y[0], es))
      else if es == room then Corrupt
      else Then(Repeat(y[0], es) + [y[c - 1]], Undo(Front(y, c - 1), codes[1..], eob, 0, 1, room - es - 1))
  }

  ghost predicate InList(codes: seq<nat>, n: nat, eob: nat) {
    forall i :: 0 <= i < |codes| ==> codes[i] <= n || codes[i] == eob
  }

  lemma DigitSplit(z: nat, n: nat, es: nat)
    requires z > 0
    ensures es + (1 + (z - 1) % 2) * n + 2 * n * ((z - 1) / 2) == es + n * z
    ensures 2 * n * ((z - 1) / 2) <= n * z && n <= n * z
  {
    var h, r := (z - 1) / 2, (z - 1) % 2;
    assert z == 1 + r + 2 * h;
    assert n * z == n * (1 + r) + n * (2 * h);
    assert 2 * n * h == n * (2 * h);
  }

  /** The digits of a run add up to its length. */
  lemma {:induction false} RunDecodes(y: seq<nat>, z: nat, rest: seq<nat>, eob: nat, es: nat, n: nat, room: nat)
    requires y != [] && InList(rest, |y|, eob) && rest != [] && rest[0] > RUNB && n * z < RUN_LIMIT
    ensures InList(RunCode(z) + rest, |y|, eob)
    ensures Undo(y, RunCode(z) + rest, eob, es, n, room) == Undo(y, rest, eob, es + n * z, 1, room)
    decreases z
  {
    if z == 0 {
      assert RunCode(z) + rest == rest;
    } else {
      DigitSplit(z, n, es);
      hide Undo, RunCode;
      RunDecodes(y, (z - 1) / 2, rest, eob, es + (1 + (z - 1) % 2) * n, 2 * n, room);
      OneDigit(y, z, rest, eob, es, n, room);
    }
  }

  lemma OneDigit(y: seq<nat>, z: nat, rest: seq<nat>, eob: nat, es: nat, n: nat, room: nat)
    requires y != [] && z > 0 && n < RUN_LIMIT && InList(RunCode((z - 1) / 2) + rest, |y|, eob)
    ensures InList(RunCode(z) + rest, |y|, eob)
    ensures Undo(y, RunCode(z) + rest, eob, es, n, room)
            == Undo(y, RunCode((z - 1) / 2) + rest, eob, es + (1 + (z - 1) % 2) * n, 2 * n, room)
  {
    var codes, t := RunCode(z) + rest, RunCode((z - 1) / 2) + rest;
    assert codes == [(z - 1) % 2] + t && codes[1..] == t;
  }

  lemma CodesInRange(y: seq<nat>, s: seq<nat>, z: nat, eob: nat)
    requires Covers(y, s)
    ensures InList(Codes(y, s, z, eob), |y|, eob)
    ensures Codes(y, s, z, eob) != [] && forall i :: 0 <= i < |Codes(y, s, z, eob)| - 1 ==> Codes(y, s, z, eob)[i] <= |y|
    decreases |s|
  {
    if s != [] {
      CoversStep(y, s);
      if s[0] == y[0] {
        CodesInRange(y, s[1..], z + 1, eob);
      } else {
        CodesInRange(Front(y, IndexOf(y, s[0])), s[1..], 0, eob);
      }
    }
  }

  lemma FrontTail(y: seq<nat>, tail: seq<nat>, k: nat)
    requires k < |y|
    ensures Front(y + tail, k) == Front(y, k) + tail
  {
  }

  lemma RepeatMore(c: nat, z: nat, s: seq<nat>)
    requires s != [] && s[0] == c
    ensures Repeat(c, z) + s == Repeat(c, z + 1) + s[1..]
  {
    assert Repeat(c, z + 1) == Repeat(c, z) + [c];
    assert s == [c] + s[1..];
  }

  lemma UndoSymbol(y: seq<nat>, codes: seq<nat>, eob: nat, es: nat, room: nat)
    requires y != [] && InList(codes, |y|, eob) && codes != [] && codes[0] > RUNB && codes[0] != eob && es < room
    requires InList(codes[1..], |y|, eob) && codes[0] <= |y|
    ensures Undo(y, codes, eob, es, 1, room)
            == Then(Repeat(y[0], es) + [y[codes[0] - 1]], Undo(Front(y, codes[0] - 1), codes[1..], eob, 0, 1, room - es - 1))
  {
    hide Front, Repeat;
  }

  /** Decoding a pending run and the list position after it. */
  lemma UndoOne(y: seq<nat>, z: nat, k: nat, next: seq<nat>, eob: nat, room: nat)
    requires 0 < k < |y| && k + 1 != eob && InList(next, |y|, eob) && z < room && z < RUN_LIMIT
    ensures InList(RunCode(z) + [k + 1] + next, |y|, eob)
    ensures Undo(y, RunCode(z) + [k + 1] + next, eob, 0, 1, room)
            == Then(Repeat(y[0], z) + [y[k]], Undo(Front(y, k), next, eob, 0, 1, room - z - 1))
  {
    hide RunCode, Front, Undo, Repeat;
    var codes := [k + 1] + next;
    RunDecodes(y, z, codes, eob, 0, 1, room);
    assert RunCode(z) + [k + 1] + next == RunCode(z) + codes;
    assert codes[1..] == next;
    UndoSymbol(y, codes, eob, z, room);
  }

  lemma UndoEnd(y: seq<nat>, z: nat, eob: nat, room: nat)
    requires y != [] && z <= room && z < RUN_LIMIT && eob > RUNB
    ensures InList(RunCode(z) + [eob], |y|, eob)
    ensures Undo(y, RunCode(z) + [eob], eob, 0, 1, room) == Done(Repeat(y[0], z))
  {
    RunDecodes(y, z, [eob], eob, 0, 1, room);
  }

  /**
   * Decoding the codes gives back what was coded, with the decoder's longer list: `tail`
   * holds the entries the encoder's list does not have.
   */
  lemma {:induction false} UndoCodes(y: seq<nat>, tail: seq<nat>, s: seq<nat>, z: nat, eob: nat, room: nat)
    requires Covers(y, s) && eob == |y| + 1 && z + |s| <= room && z + |s| < RUN_LIMIT
    ensures InList(Codes(y, s, z, eob), |y + tail|, eob)
    ensures Undo(y + tail, Codes(y, s, z, eob), eob, 0, 1, room) == Done(Repeat(y[0], z) + s)
    decreases |s|
  {
    hide Undo, RunCode, Front, Covers;
    CodesInRange(y, s, z, eob);
    var y' := y + tail;
    CoversSome(y, s);
    if s == [] {
      UndoEnd(y', z, eob, room);
      assert Repeat(y[0], z) + s == Repeat(y[0], z);
    } else {
      CoversStep(y, s);
      if s[0] == y[0] {
        UndoCodes(y, tail, s[1..], z + 1, eob, room);
        RepeatMore(y[0], z, s);
      } else {
        var k := IndexOf(y, s[0]);
        var next := Codes(Front(y, k), s[1..], 0, eob);
        UndoCodes(Front(y, k), tail, s[1..], 0, eob, room - z - 1);
        FrontTail(y, tail, k);
        UndoOne(y', z, k, next, eob, room);
        assert Repeat(Front(y, k)[0], 0) + s[1..] == s[1..];
        assert Repeat(y[0], z) + [y'[k]] + s[1..] == Repeat(y[0], z) + s;
      }
    }
  }

  lemma CoversSome(y: seq<nat>, s: seq<nat>)
    requires Covers(y, s)
    ensures y != []
  {
  }
}

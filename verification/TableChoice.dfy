/** Choosing a coding table for every group of fifty codes, and remaking the tables from the choice. */
module TableChoice {
  import opened Permutations
  import opened HeaderBits
  import opened CanonicalCodes
  import opened CodeLengths
  import opened SymbolStream

  const N_ITERS := 4
  const MAX_LENGTH := 17
  const MAX_CODES := 900001

  /** How many groups n codes make. */
  function Groups(n: nat): nat {
    (n + G_SIZE - 1) / G_SIZE
  }

  /** Every table has a length for every symbol. */
  ghost predicate Shaped(lens: seq<seq<Byte>>, nGroups: nat, alphaSize: nat) {
    |lens| == nGroups && forall t :: 0 <= t < nGroups ==> |lens[t]| == alphaSize
  }

  function Sum(f: seq<nat>): nat {
    if f == [] then 0 else Sum(f[..|f| - 1]) + f[|f| - 1]
  }

  lemma {:induction false} SumUpdate(f: seq<nat>, c: nat)
    requires c < |f|
    ensures Sum(f[c := f[c] + 1]) == Sum(f) + 1
  {
    var t, g := f[..|f| - 1], f[c := f[c] + 1];
    if c < |f| - 1 {
      SumUpdate(t, c);
      assert g[..|g| - 1] == t[c := t[c] + 1];
    } else {
      assert g[..|g| - 1] == t;
    }
  }

  lemma {:induction false} SumZeros(n: nat)
    ensures Sum(seq(n, i => 0)) == 0
  {
    if n > 0 {
      SumZeros(n - 1);
      assert seq(n, i => 0)[..n - 1] == seq(n - 1, i => 0);
    }
  }

  lemma {:induction false} WeightBound(f: seq<nat>)
    ensures TotalWeight(f) <= Sum(f) + |f|
  {
    if f != [] {
      WeightBound(f[..|f| - 1]);
    }
  }

  /** The bits a table takes for some codes. */
  function CostOf(len: seq<Byte>, codes: seq<nat>): nat
    requires forall i :: 0 <= i < |codes| ==> codes[i] < |len|
  {
    if codes == [] then 0 else CostOf(len, codes[..|codes| - 1]) + len[codes[|codes| - 1]]
  }

  method Cost(len: seq<Byte>, mtfv: seq<nat>, gs: nat, ge: nat) returns (cost: nat)
    requires gs <= ge <= |mtfv| && forall i :: 0 <= i < |mtfv| ==> mtfv[i] < |len|
    ensures cost == CostOf(len, mtfv[gs..ge])
  {
    cost := 0;
    var i := gs;
    while i < ge
      invariant gs <= i <= ge && cost == CostOf(len, mtfv[gs..i])
    {
      assert mtfv[gs..i + 1][..i - gs] == mtfv[gs..i];
      cost := cost + len[mtfv[i]];
      i := i + 1;
    }
  }

  /** t is the first of the tables that take the fewest bits for these codes. */
  ghost predicate Picked(lens: seq<seq<Byte>>, codes: seq<nat>, t: nat) {
    && t < |lens| && (forall k, i :: 0 <= k < |lens| && 0 <= i < |codes| ==> codes[i] < |lens[k]|)
    && (forall k :: 0 <= k < |lens| ==> CostOf(lens[t], codes) <= CostOf(lens[k], codes))
    && forall k :: 0 <= k < t ==> CostOf(lens[t], codes) < CostOf(lens[k], codes)
  }

  /** The first of the tables that take the fewest bits for a group. */
  method BestTable(lens: seq<seq<Byte>>, mtfv: seq<nat>, gs: nat, ge: nat, ghost alphaSize: nat) returns (bt: nat)
    requires lens != [] && Shaped(lens, |lens|, alphaSize) && gs <= ge <= |mtfv|
    requires forall i :: 0 <= i < |mtfv| ==> mtfv[i] < alphaSize
    ensures Picked(lens, mtfv[gs..ge], bt)
  {
    bt := 0;
    var bc := Cost(lens[0], mtfv, gs, ge);
    var t := 1;
    while t < |lens|
      invariant bt < t <= |lens| && bc == CostOf(lens[bt], mtfv[gs..ge])
      invariant forall k :: 0 <= k < t ==> bc <= CostOf(lens[k], mtfv[gs..ge])
      invariant forall k :: 0 <= k < bt ==> bc < CostOf(lens[k], mtfv[gs..ge])
    {
      var c := Cost(lens[t], mtfv, gs, ge);
      if c < bc {
        bc, bt := c, t;
      }
      t := t + 1;
    }
  }

  /** Counts a group's codes. */
  method CountGroup(freq: seq<nat>, mtfv: seq<nat>, gs: nat, ge: nat) returns (freq': seq<nat>)
    requires gs <= ge <= |mtfv| && forall i :: 0 <= i < |mtfv| ==> mtfv[i] < |freq|
    ensures |freq'| == |freq| && Sum(freq') == Sum(freq) + (ge - gs)
    ensures forall v :: 0 <= v < |freq| ==> freq'[v] == freq[v] + multiset(mtfv[gs..ge])[v]
  {
    freq' := freq;
    var i := gs;
    while i < ge
      invariant gs <= i <= ge && |freq'| == |freq| && Sum(freq') == Sum(freq) + (i - gs)
      invariant forall v :: 0 <= v < |freq| ==> freq'[v] == freq[v] + multiset(mtfv[gs..i])[v]
    {
      assert mtfv[gs..i + 1] == mtfv[gs..i] + [mtfv[i]];
      SumUpdate(freq', mtfv[i]);
      freq' := freq'[mtfv[i] := freq'[mtfv[i]] + 1];
      i := i + 1;
    }
  }

  /** Frequencies of the codes given to each table; no table is given more than n. */
  ghost predicate Tallied(rfreq: seq<seq<nat>>, nGroups: nat, alphaSize: nat, n: nat) {
    |rfreq| == nGroups && forall t :: 0 <= t < nGroups ==> |rfreq[t]| == alphaSize && Sum(rfreq[t]) <= n
  }

  /** The codes of group g. */
  function GroupOf(mtfv: seq<nat>, g: nat): (codes: seq<nat>)
    requires g < Groups(|mtfv|)
  {
    mtfv[G_SIZE * g..if G_SIZE * (g + 1) <= |mtfv| then G_SIZE * (g + 1) else |mtfv|]
  }

  /** How often code v occurs in the groups that have table t. */
  ghost function Given(mtfv: seq<nat>, selectors: seq<nat>, t: nat, v: nat): nat
    requires |selectors| <= Groups(|mtfv|)
  {
    if selectors == [] then 0
    else
      var g := |selectors| - 1;
      Given(mtfv, selectors[..g], t, v) + if selectors[g] == t then multiset(GroupOf(mtfv, g))[v] else 0
  }

  /** Frequencies are those of the codes that the selectors give to each table. */
  ghost predicate Counted(rfreq: seq<seq<nat>>, mtfv: seq<nat>, selectors: seq<nat>, alphaSize: nat) {
    && |selectors| <= Groups(|mtfv|) && (forall t :: 0 <= t < |rfreq| ==> |rfreq[t]| == alphaSize)
    && forall t, v :: 0 <= t < |rfreq| && 0 <= v < alphaSize ==> rfreq[t][v] == Given(mtfv, selectors, t, v)
  }

  lemma CountedNext(rfreq: seq<seq<nat>>, mtfv: seq<nat>, selectors: seq<nat>, alphaSize: nat, bt: nat, counted: seq<nat>)
    requires Counted(rfreq, mtfv, selectors, alphaSize) && |selectors| < Groups(|mtfv|) && bt < |rfreq| && |rfreq[bt]| == |counted| == alphaSize
    requires forall v :: 0 <= v < alphaSize ==> counted[v] == rfreq[bt][v] + multiset(GroupOf(mtfv, |selectors|))[v]
    ensures Counted(rfreq[bt := counted], mtfv, selectors + [bt], alphaSize)
  {
    var more := selectors + [bt];
    forall t, v | 0 <= t < |rfreq| && 0 <= v < alphaSize
      ensures rfreq[bt := counted][t][v] == Given(mtfv, more, t, v)
    {
      assert more[..|more| - 1] == selectors;
      assert rfreq[t][v] == Given(mtfv, selectors, t, v);
    }
  }

  /** Each group has the first of its cheapest tables. */
  ghost predicate AllPicked(lens: seq<seq<Byte>>, mtfv: seq<nat>, selectors: seq<nat>) {
    |selectors| <= Groups(|mtfv|) && forall g :: 0 <= g < |selectors| ==> Picked(lens, GroupOf(mtfv, g), selectors[g])
  }

  /** Gives every group its best table and counts the codes each table is given. */
  method ChooseAll(lens: seq<seq<Byte>>, mtfv: seq<nat>, alphaSize: nat) returns (selectors: seq<nat>, rfreq: seq<seq<nat>>)
    requires lens != [] && Shaped(lens, |lens|, alphaSize) && forall i :: 0 <= i < |mtfv| ==> mtfv[i] < alphaSize
    ensures |selectors| == Groups(|mtfv|) && AllPicked(lens, mtfv, selectors)
    ensures Tallied(rfreq, |lens|, alphaSize, |mtfv|) && Counted(rfreq, mtfv, selectors, alphaSize)
  {
    hide Picked;
    SumZeros(alphaSize);
    selectors := [];
    rfreq := seq(|lens|, t => seq(alphaSize, v => 0));
    var gs := 0;
    while gs < |mtfv|
      invariant gs <= |mtfv| && gs == (if gs < |mtfv| then G_SIZE * |selectors| else |mtfv|)
      invariant |selectors| <= Groups(|mtfv|) && (gs == |mtfv| ==> |selectors| == Groups(|mtfv|))
      invariant AllPicked(lens, mtfv, selectors)
      invariant Tallied(rfreq, |lens|, alphaSize, gs) && Counted(rfreq, mtfv, selectors, alphaSize)
    {
      var ge := if gs + G_SIZE <= |mtfv| then gs + G_SIZE else |mtfv|;
      var bt := BestTable(lens, mtfv, gs, ge, alphaSize);
      PickedTable(lens, mtfv[gs..ge], bt);
      assert mtfv[gs..ge] == GroupOf(mtfv, |selectors|);
      var counted := CountGroup(rfreq[bt], mtfv, gs, ge);
      CountedNext(rfreq, mtfv, selectors, alphaSize, bt, counted);
      rfreq := rfreq[bt := counted];
      selectors := selectors + [bt];
      gs := ge;
    }
  }

  lemma PickedTable(lens: seq<seq<Byte>>, codes: seq<nat>, t: nat)
    requires Picked(lens, codes, t)
    ensures t < |lens|
  {
  }

  /** A table the coder may use: complete, with lengths of 1 to 17. */
  ghost predicate Usable(len: seq<Byte>, alphaSize: nat) {
    && |len| == alphaSize && (forall i :: 0 <= i < alphaSize ==> 1 <= len[i] <= MAX_LENGTH)
    && KraftSum(len, LONGEST) == Pow2(LONGEST)
  }

  method RemakeTables(rfreq: seq<seq<nat>>, alphaSize: nat, ghost n: nat) returns (lens: seq<seq<Byte>>)
    requires 2 <= alphaSize <= MAX_ALPHA && Tallied(rfreq, |rfreq|, alphaSize, n) && n <= MAX_CODES
    ensures |lens| == |rfreq| && forall t :: 0 <= t < |lens| ==> Usable(lens[t], alphaSize) && MadeFrom(lens[t], rfreq[t], MAX_LENGTH)
  {
    hide KraftSum, Pow2, TotalWeight, MadeFrom;
    lens := [];
    while |lens| < |rfreq|
      invariant |lens| <= |rfreq|
      invariant forall t :: 0 <= t < |lens| ==> Usable(lens[t], alphaSize) && MadeFrom(lens[t], rfreq[t], MAX_LENGTH)
    {
      var len := new Byte[alphaSize](_ => 0);
      WeightBound(rfreq[|lens|]);
      MakeCodeLengths(len, rfreq[|lens|], alphaSize, MAX_LENGTH);
      lens := lens + [len[..]];
    }
  }

  /** How many tables to use. */
  function GroupCount(nMTF: nat): (n: nat)
    ensures 2 <= n <= 6
  {
    if nMTF < 200 then 2 else if nMTF < 600 then 3 else if nMTF < 1200 then 4 else if nMTF < 2400 then 5 else 6
  }

  /** Selectors and tables as a pass makes them from the tables before it. */
  ghost predicate PassMakes(before: seq<seq<Byte>>, mtfv: seq<nat>, alphaSize: nat, selectors: seq<nat>, lens: seq<seq<Byte>>) {
    exists rfreq :: Remade(before, mtfv, alphaSize, selectors, lens, rfreq)
  }

  ghost predicate Remade(before: seq<seq<Byte>>, mtfv: seq<nat>, alphaSize: nat, selectors: seq<nat>, lens: seq<seq<Byte>>, rfreq: seq<seq<nat>>) {
    && |before| == |lens| == |rfreq| && |selectors| == Groups(|mtfv|) && AllPicked(before, mtfv, selectors)
    && Counted(rfreq, mtfv, selectors, alphaSize)
    && forall t :: 0 <= t < |lens| ==> MadeFrom(lens[t], rfreq[t], MAX_LENGTH)
  }

  /**
   * Settles on tables and selectors, starting from any first guess at the tables and improving
   * them four times. Whatever the guess, the tables are complete, every group has the first of those that were
   * cheapest for it before the last pass, and each table is a cheapest code for the codes it was given.
   */
  method SettleTables(mtfv: seq<nat>, alphaSize: nat, initial: seq<seq<Byte>>)
    returns (selectors: seq<nat>, lens: seq<seq<Byte>>, ghost passes: seq<seq<seq<Byte>>>, ghost choices: seq<seq<nat>>)
    requires 2 <= alphaSize <= MAX_ALPHA && 0 < |mtfv| <= MAX_CODES && forall i :: 0 <= i < |mtfv| ==> mtfv[i] < alphaSize
    requires Shaped(initial, GroupCount(|mtfv|), alphaSize)
    ensures |lens| == GroupCount(|mtfv|) && forall t :: 0 <= t < |lens| ==> Usable(lens[t], alphaSize)
    ensures |selectors| == Groups(|mtfv|) && forall i :: 0 <= i < |selectors| ==> selectors[i] < |lens|
    ensures |passes| == N_ITERS + 1 && |choices| == N_ITERS && passes[0] == initial && passes[N_ITERS] == lens && choices[N_ITERS - 1] == selectors
    ensures forall k :: 0 <= k < N_ITERS ==> PassMakes(passes[k], mtfv, alphaSize, choices[k], passes[k + 1])
  {
    hide KraftSum, Pow2, AllPicked, Counted, MadeFrom, PassMakes;
    lens, passes, choices := initial, [initial], [];
    selectors := [];
    var iter := 0;
    while iter < N_ITERS
      invariant iter <= N_ITERS && Shaped(lens, GroupCount(|mtfv|), alphaSize)
      invariant iter > 0 ==> forall t :: 0 <= t < |lens| ==> Usable(lens[t], alphaSize)
      invariant iter > 0 ==> |selectors| == Groups(|mtfv|) && forall i :: 0 <= i < |selectors| ==> selectors[i] < |lens|
      invariant |passes| == iter + 1 && |choices| == iter && passes[0] == initial && passes[iter] == lens
      invariant iter > 0 ==> choices[iter - 1] == selectors
      invariant forall k :: 0 <= k < iter ==> PassMakes(passes[k], mtfv, alphaSize, choices[k], passes[k + 1])
    {
      var rfreq;
      ghost var before := lens;
      selectors, rfreq := ChooseAll(lens, mtfv, alphaSize);
      PickedInside(lens, mtfv, selectors);
      lens := RemakeTables(rfreq, alphaSize, |mtfv|);
      RemadeBy(before, mtfv, alphaSize, selectors, lens, rfreq);
      passes, choices := passes + [lens], choices + [selectors];
      iter := iter + 1;
    }
  }

  lemma PickedInside(lens: seq<seq<Byte>>, mtfv: seq<nat>, selectors: seq<nat>)
    requires AllPicked(lens, mtfv, selectors)
    ensures forall g :: 0 <= g < |selectors| ==> selectors[g] < |lens|
  {
  }

  lemma RemadeBy(before: seq<seq<Byte>>, mtfv: seq<nat>, alphaSize: nat, selectors: seq<nat>, lens: seq<seq<Byte>>, rfreq: seq<seq<nat>>)
    requires Remade(before, mtfv, alphaSize, selectors, lens, rfreq)
    ensures PassMakes(before, mtfv, alphaSize, selectors, lens)
  {
  }
}

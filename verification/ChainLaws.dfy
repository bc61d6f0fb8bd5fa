/** The skip heights bit by bit, the choice made at every step of a walk, and the gaps of a
    locator. */
module ChainLaws {
  import opened Numbers
  import opened ChainHeights
  import opened ChainWalk

  // ---------------------------------------------------------------- skip heights

  // An even height loses its lowest one bit.
  lemma EvenSkipIs(m: nat, k: nat)
    requires m % 2 == 1 && k > 0
    ensures GetSkipHeight(m * Pow(2, k)) == (m - 1) * Pow(2, k)
  {
    hide Pow;
    ClearsLowestOne(m, k);
    PowerNext(k);
    Doubles(m, Pow(2, k - 1));
    hide InvertLowestOne;
  }

  // An odd height keeps its last bit and loses the two lowest of the others ...
  lemma OddSkipIs(m: nat, j: nat, k: nat)
    requires m % 2 == 1 && k > 0 && j > 0
    ensures GetSkipHeight(1 + (m * Pow(2, j) + 1) * Pow(2, k)) == 1 + (m - 1) * Pow(2, j + k)
  {
    hide Pow, InvertLowestOne, GetSkipHeight;
    var q := m * Pow(2, j);
    EvenPower(m, j);
    ClearsLowestOne(q + 1, k);
    EvenPower(q + 1, k);
    PowAdd(2, j, k);
    Associates(m, Pow(2, j), Pow(2, k));
    ClearsLowestOne(m, j + k);
    OddSkip((q + 1) * Pow(2, k));
  }

  // ... or the only one.
  lemma LastSkipIs(k: nat)
    requires k > 0
    ensures GetSkipHeight(1 + Pow(2, k)) == 1
  {
    hide Pow, GetSkipHeight;
    ClearsLowestOne(1, k);
    EvenPower(1, k);
    assert 1 * Pow(2, k) == Pow(2, k) && (1 - 1) * Pow(2, k) == 0;
    OddSkip(Pow(2, k));
  }

  lemma EvenPower(m: nat, k: nat)
    requires k > 0
    ensures (m * Pow(2, k)) % 2 == 0
  {
    PowerNext(k);
    hide Pow;
    Doubles(m, Pow(2, k - 1));
  }

  lemma OddSkip(x: nat)
    requires x % 2 == 0 && x > 0
    ensures GetSkipHeight(1 + x) == 1 + InvertLowestOne(InvertLowestOne(x))
  {
    hide InvertLowestOne;
  }

  // Without a predecessor to skip over, everything goes back to the genesis block.
  lemma FirstSkips()
    ensures GetSkipHeight(0) == 0 && GetSkipHeight(1) == 0
  {
  }

  // A step takes the skip if it lands on the target, or lands above it and the skip of the block
  // before does not land more than two lower and still not below the target.
  lemma NextIs(h: nat, t: nat)
    requires t < h
    ensures var skip, before := GetSkipHeight(h), GetSkipHeight(h - 1);
      NextHeight(h, t) == if skip == t || (skip > t && (before >= skip - 2 || before < t)) then skip else h - 1
  {
    hide InvertLowestOne;
  }

  // ---------------------------------------------------------------- locators

  // The gap after the i-th height of a locator: one for the first ten, then doubling.
  function Gap(i: nat): nat {
    if i < 10 then 1 else Pow(2, i - 10)
  }

  lemma GapNext(i: nat)
    ensures Gap(i) > 0
    ensures Gap(i + 1) == if i + 1 > 10 then 2 * Gap(i) else Gap(i)
  {
  }

  lemma {:induction false} LocatorGapsFrom(h: nat, n: nat, i: nat)
    ensures Gap(n) > 0
    ensures var hs := LocatorHeights(h, Gap(n), n);
      i + 1 < |hs| ==> hs[i] > 0 && hs[i + 1] == if hs[i] > Gap(n + i) then hs[i] - Gap(n + i) else 0
    decreases i
  {
    hide Gap;
    GapNext(n);
    if h > 0 {
      var next := if h > Gap(n) then h - Gap(n) else 0;
      if i == 0 {
        GapNext(n + 1);
        LocatorStarts(next, Gap(n + 1), n + 1);
      } else {
        LocatorGapsFrom(next, n + 1, i - 1);
      }
    }
  }

  lemma LocatorStarts(h: nat, nStep: nat, n: nat)
    requires nStep > 0
    ensures LocatorHeights(h, nStep, n) != [] && LocatorHeights(h, nStep, n)[0] == h
  {
  }

  // The heights of a locator: the block's own, then each lower by its gap, down to zero.
  lemma LocatorGaps(h: nat, i: nat)
    ensures var hs := LocatorHeights(h, 1, 0);
      && hs != [] && hs[0] == h && hs[|hs| - 1] == 0
      && (i + 1 < |hs| ==>
            var gap := if i < 10 then 1 else Pow(2, i - 10);
            hs[i] > 0 && hs[i + 1] == if hs[i] > gap then hs[i] - gap else 0)
  {
    LocatorFalls(h, 1, 0);
    LocatorGapsFrom(h, 0, i);
    hide LocatorHeights;
  }
}

/** The heights the block index jumps between: skip heights and locator heights. */
module ChainHeights {
  import opened Numbers

  // Bitwise and of two numbers.
  function And(x: nat, y: nat): (r: nat)
    ensures r <= x && r <= y
  {
    if x == 0 || y == 0 then 0
    else 2 * And(x / 2, y / 2) + (if x % 2 == 1 && y % 2 == 1 then 1 else 0)
  }

  // n & (n - 1); for zero that is 0 & -1.
  function InvertLowestOne(n: nat): (r: nat)
    ensures n > 0 ==> r < n
  {
    if n == 0 then 0 else And(n, n - 1)
  }

  lemma {:induction false} AndSelf(x: nat)
    ensures And(x, x) == x
  {
    if x != 0 {
      AndSelf(x / 2);
    }
  }

  lemma AndDouble(n: nat)
    requires n > 0
    ensures InvertLowestOne(2 * n) == 2 * InvertLowestOne(n)
  {
    assert (2 * n) / 2 == n && (2 * n - 1) / 2 == n - 1;
    assert And(2 * n, 2 * n - 1) == 2 * And(n, n - 1);
  }

  lemma ClearsOdd(m: nat)
    requires m % 2 == 1
    ensures InvertLowestOne(m) == m - 1
  {
    AndSelf(m / 2);
    assert (m - 1) / 2 == m / 2;
  }

  lemma PowerNext(k: nat)
    ensures if k == 0 then Pow(2, k) == 1 else Pow(2, k) == 2 * Pow(2, k - 1)
  {
  }

  // It clears exactly the lowest bit that is set.
  lemma {:induction false} ClearsLowestOne(m: nat, k: nat)
    requires m % 2 == 1
    ensures m * Pow(2, k) > 0 && InvertLowestOne(m * Pow(2, k)) == (m - 1) * Pow(2, k)
  {
    hide Pow, InvertLowestOne;
    PowerNext(k);
    if k == 0 {
      ClearsOdd(m);
    } else {
      var p := Pow(2, k - 1);
      ClearsLowestOne(m, k - 1);
      AndDouble(m * p);
      Doubles(m, p);
      Doubles(m - 1, p);
    }
  }

  lemma Doubles(a: nat, p: nat)
    ensures a * (2 * p) == 2 * (a * p)
  {
    Associates(a, 2, p);
    Associates(2, a, p);
  }

  function GetSkipHeight(height: int): (r: nat)
    ensures height > 0 ==> r < height
  {
    if height < 2 then 0
    else if height % 2 == 1 then InvertLowestOne(InvertLowestOne(height - 1)) + 1
    else InvertLowestOne(height)
  }

  // ---------------------------------------------------------------- locators

  // The heights of a locator from height h on, with the next step back and n entries listed.
  function LocatorHeights(h: nat, nStep: nat, n: nat): seq<nat>
    requires nStep > 0
    decreases h
  {
    if h == 0 then [0]
    else
      var next := if h > nStep then h - nStep else 0;
      [h] + LocatorHeights(next, if n + 1 > 10 then 2 * nStep else nStep, n + 1)
  }

  // They start at h, fall strictly, and end at the genesis block.
  lemma {:induction false} LocatorFalls(h: nat, nStep: nat, n: nat)
    requires nStep > 0
    ensures LocatorHeights(h, nStep, n) != [] && LocatorHeights(h, nStep, n)[0] == h
    ensures LocatorHeights(h, nStep, n)[|LocatorHeights(h, nStep, n)| - 1] == 0
    ensures forall i, j | 0 <= i < j < |LocatorHeights(h, nStep, n)| ::
              LocatorHeights(h, nStep, n)[i] > LocatorHeights(h, nStep, n)[j]
    decreases h
  {
    if h > 0 {
      var next := if h > nStep then h - nStep else 0;
      LocatorFalls(next, if n + 1 > 10 then 2 * nStep else nStep, n + 1);
      var rest := LocatorHeights(next, if n + 1 > 10 then 2 * nStep else nStep, n + 1);
      assert forall j | 0 <= j < |rest| :: rest[j] <= rest[0];
    }
  }

  // Once the steps double, k steps cover nStep * (2^k - 1) heights.
  lemma {:induction false} DoublingLength(h: nat, nStep: nat, n: nat, k: nat)
    requires nStep > 0 && n >= 10 && h <= nStep * (Pow(2, k) - 1)
    ensures |LocatorHeights(h, nStep, n)| <= 1 + k
    decreases k
  {
    if k > 0 && h > 0 {
      var next := if h > nStep then h - nStep else 0;
      var p := Pow(2, k - 1);
      assert nStep * (2 * p - 1) - nStep == (2 * nStep) * (p - 1) by {
        Distributes(nStep, 2 * p, 1);
        Associates(2, nStep, p);
        Associates(nStep, 2, p);
        Distributes(2 * nStep, p, 1);
      }
      Positive(2 * nStep, p - 1);
      DoublingLength(next, 2 * nStep, n + 1, k - 1);
    } else if k == 0 {
      assert nStep * 0 == 0;
    }
  }

  lemma {:induction false} SingleSteps(h: nat, n: nat, k: nat)
    requires n <= 10 && (h > 10 - n ==> h - (10 - n) <= Pow(2, k) - 1)
    ensures |LocatorHeights(h, 1, n)| <= 11 - n + k
    decreases 10 - n
  {
    if n == 10 {
      DoublingLength(h, 1, n, k);
    } else if h > 0 {
      SingleSteps(h - 1, n + 1, k);
    }
  }

  // The least k with n <= 2^k.
  function CeilLog2(n: nat): (k: nat)
    ensures n <= Pow(2, k)
    ensures k > 0 ==> n > Pow(2, k - 1)
  {
    if n <= 1 then 0 else
      var k := CeilLog2((n + 1) / 2);
      assert k > 0 ==> 2 * Pow(2, k - 1) == Pow(2, k);
      k + 1
  }

  lemma LocatorLength(h: nat)
    ensures |LocatorHeights(h, 1, 0)| <= 11 + CeilLog2(h + 1)
  {
    SingleSteps(h, 0, CeilLog2(h + 1));
  }
}

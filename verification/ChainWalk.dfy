/** How many steps GetAncestor takes: at most the square of the number of bits of the height.

    The walk goes down to a height t.  As long as it stays above t, the bits its height shares
    with t stay; below these, a walk on even heights clears the lowest one bit at each step, and a
    walk on odd heights clears the lowest two. */
module ChainWalk {
  import opened Numbers
  import opened ChainHeights

  // One step of GetAncestor's loop, where every block has its skip pointer.
  function NextHeight(h: nat, t: nat): (r: nat)
    requires t < h
    ensures t <= r < h
  {
    var heightSkip, heightSkipPrev := GetSkipHeight(h), GetSkipHeight(h - 1);
    if heightSkip == t || (heightSkip > t && !(heightSkipPrev < heightSkip - 2 && heightSkipPrev >= t))
    then heightSkip
    else h - 1
  }

  function WalkSteps(h: nat, t: nat): nat
    requires t <= h
    decreases h
  {
    if h == t then 0 else 1 + WalkSteps(NextHeight(h, t), t)
  }

  // ---------------------------------------------------------------- clearing the lowest bit

  // Every number but zero is odd times a power of two.
  lemma {:induction false} LowestOne(x: nat) returns (m: nat, e: nat)
    requires x > 0
    ensures m % 2 == 1 && x == m * Pow(2, e)
    decreases x
  {
    if x % 2 == 1 {
      m, e := x, 0;
    } else {
      m, e := LowestOne(x / 2);
      Doubles(m, Pow(2, e));
      e := e + 1;
    }
  }

  // A multiple of 2^k that is odd times 2^e has e >= k.
  lemma BitsBelow(m: nat, e: nat, k: nat)
    requires m % 2 == 1 && (m * Pow(2, e)) % Pow(2, k) == 0
    ensures k <= e
  {
    if e < k {
      var q := (m * Pow(2, e)) / Pow(2, k);
      DivMod(m * Pow(2, e), Pow(2, k));
      PowAdd(2, e, k - e);
      var d := Pow(2, k - e);
      assert d == 2 * Pow(2, k - e - 1);
      hide Pow;
      Associates(q, d, Pow(2, e));
      assert q * (Pow(2, e) * d) == (q * d) * Pow(2, e);
      Cancel(m, q * d, Pow(2, e));
      Associates(q, 2, Pow(2, k - e - 1));
      EvenTimes(q, Pow(2, k - e - 1));
    }
  }

  lemma Cancel(a: int, b: int, d: nat)
    requires d > 0 && a * d == b * d
    ensures a == b
  {
    Distributes(d, a, b);
    if a > b {
      TimesGrows(d, 1, a - b);
    } else if a < b {
      TimesGrows(d, 1, b - a);
    }
  }

  lemma EvenTimes(q: nat, p: nat)
    ensures (q * (2 * p)) % 2 == 0
  {
    Doubles(q, p);
    IsQuotient(2 * (q * p), 2, q * p, 0);
  }

  lemma HalfTimes(m: nat, e: nat)
    requires m % 2 == 1
    ensures ((m - 1) * Pow(2, e)) % Pow(2, e + 1) == 0
  {
    var h, p := (m - 1) / 2, Pow(2, e);
    assert Pow(2, e + 1) == 2 * p;
    hide Pow;
    assert (m - 1) * p == h * (2 * p) by { Associates(h, 2, p); }
    IsQuotient(h * (2 * p), 2 * p, h, 0);
  }

  // Clearing the lowest bit of a multiple of 2^k gives a multiple of 2^(k + 1).
  lemma ClearDivides(x: nat, k: nat)
    requires x % Pow(2, k) == 0
    ensures InvertLowestOne(x) % Pow(2, k + 1) == 0
  {
    hide Pow;
    if x > 0 {
      hide InvertLowestOne;
      var m, e := LowestOne(x);
      BitsBelow(m, e, k);
      ClearsLowestOne(m, e);
      HalfTimes(m, e);
      LowerPower(InvertLowestOne(x), e + 1, k + 1);
    } else {
      IsQuotient(0, Pow(2, k + 1), 0, 0);
    }
  }

  lemma LowerPower(x: nat, e: nat, k: nat)
    requires k <= e && x % Pow(2, e) == 0
    ensures x % Pow(2, k) == 0
  {
    PowAdd(2, e - k, k);
    hide Pow;
    var q := x / Pow(2, e);
    DivMod(x, Pow(2, e));
    Associates(q, Pow(2, e - k), Pow(2, k));
    Positive(q, Pow(2, e - k));
    IsQuotient(x, Pow(2, k), q * Pow(2, e - k), 0);
  }

  // Strictly between two neighbouring multiples of 2^j there are only multiples of smaller powers.
  lemma Between(x: nat, mid: nat, j: nat, k: nat)
    requires mid % Pow(2, j) == 0 && mid < x < mid + Pow(2, j) && x % Pow(2, k) == 0
    ensures k < j
  {
    if k >= j {
      LowerPower(x, k, j);
      hide Pow;
      var p := Pow(2, j);
      DivMod(mid, p);
      IsQuotient(x, p, mid / p, x - mid);
    }
  }

  // Clearing the lowest bit does not cross a multiple of a higher power.
  lemma ClearStays(x: nat, mid: nat, j: nat)
    requires mid % Pow(2, j) == 0 && mid < x < mid + Pow(2, j)
    ensures mid <= InvertLowestOne(x) < x
  {
    var m, e := LowestOne(x);
    ClearsLowestOne(m, e);
    var p := Pow(2, e);
    IsQuotient(m * p, p, m, 0);
    Between(x, mid, j, e);
    LowerPower(mid, j, e);
    hide Pow;
    DivMod(mid, p);
    var a := mid / p;
    Distributes(p, m, 1);
    if m - 1 < a {
      TimesGrows(p, m, a);
    }
    TimesGrows(p, a, m - 1);
  }

  // ---------------------------------------------------------------- the two tracks

  lemma EvenSkip(h: nat)
    requires h % 2 == 0 && h > 0
    ensures GetSkipHeight(h) == InvertLowestOne(h)
    ensures GetSkipHeight(h + 1) == InvertLowestOne(InvertLowestOne(h)) + 1
  {
  }

  // An odd height takes its skip whenever that does not go too far.
  lemma OddSkips(x: nat, t: nat)
    requires x % 2 == 0 && x > 0 && t <= x && InvertLowestOne(InvertLowestOne(x)) + 1 >= t
    ensures NextHeight(x + 1, t) == InvertLowestOne(InvertLowestOne(x)) + 1
  {
    EvenSkip(x);
    hide InvertLowestOne;
  }

  lemma OddGoesBack(x: nat, t: nat)
    requires x % 2 == 0 && x > 0 && t <= x && InvertLowestOne(InvertLowestOne(x)) + 1 < t
    ensures NextHeight(x + 1, t) == x
  {
    EvenSkip(x);
    hide InvertLowestOne;
  }

  lemma ClearMultiple(m: nat, k: nat, x: nat, p: nat)
    requires m % 2 == 1 && p == Pow(2, k) && x == m * p
    ensures InvertLowestOne(x) == x - p
  {
    ClearsLowestOne(m, k);
    Distributes(p, m, 1);
  }

  lemma SmallPowers()
    ensures Pow(2, 0) == 1 && Pow(2, 1) == 2 && Pow(2, 2) == 4 && Pow(2, 3) == 8 && Pow(2, 4) == 16
  {
    assert Pow(2, 2) == 2 * Pow(2, 1) && Pow(2, 3) == 2 * Pow(2, 2) && Pow(2, 4) == 2 * Pow(2, 3);
  }

  // Clearing the lowest bit of a multiple of 8 takes off at least 8.
  lemma ClearEight(h: nat)
    requires h % 8 == 0 && h > 0
    ensures InvertLowestOne(h) <= h - 8 && InvertLowestOne(h) % 16 == 0
  {
    ClearsFall(h);
    hide Pow, InvertLowestOne;
    SmallPowers();
    ClearDivides(h, 3);
  }

  lemma ClearsFall(x: nat)
    ensures InvertLowestOne(InvertLowestOne(x)) <= InvertLowestOne(x) <= x
    ensures x > 0 ==> InvertLowestOne(x) < x
    ensures InvertLowestOne(x) > 0 ==> InvertLowestOne(InvertLowestOne(x)) < InvertLowestOne(x)
  {
  }

  lemma PrevOfEights(h: nat)
    requires h % 8 == 0 && h > 0
    ensures InvertLowestOne(InvertLowestOne(h - 2)) == h - 8 >= InvertLowestOne(h)
  {
    hide Pow, InvertLowestOne;
    SmallPowers();
    var g := h / 8;
    assert h == 8 * g && g > 0;
    ClearMultiple(4 * g - 1, 1, h - 2, 2);
    ClearMultiple(2 * g - 1, 2, h - 4, 4);
    ClearEight(h);
  }

  lemma PrevOfFours(h: nat)
    requires h % 8 == 4
    ensures InvertLowestOne(h - 2) == h - 4 && InvertLowestOne(h - 4) % 16 == 0
  {
    hide Pow, InvertLowestOne;
    SmallPowers();
    var g := h / 8;
    assert h == 8 * g + 4;
    ClearMultiple(4 * g + 1, 1, h - 2, 2);
    DividesEight(g);
    ClearDivides(h - 4, 3);
  }

  lemma DividesEight(g: nat)
    ensures (8 * g) % Pow(2, 3) == 0 && Pow(2, 4) == 16
  {
    SmallPowers();
  }

  lemma PrevOfTwos(h: nat)
    requires h % 4 == 2
    ensures InvertLowestOne(h - 2) % 8 == 0 && InvertLowestOne(InvertLowestOne(h - 2)) % 16 == 0
  {
    hide Pow, InvertLowestOne;
    SmallPowers();
    ClearDivides(h - 2, 2);
    ClearDivides(InvertLowestOne(h - 2), 3);
  }

  // An even height whose predecessor has the better skip is no multiple of 8, and that skip
  // clears all bits up to the third.
  lemma BetterPrev(h: nat)
    requires h % 2 == 0 && h > 2
    requires InvertLowestOne(InvertLowestOne(h - 2)) + 1 < InvertLowestOne(h) - 2
    ensures h % 8 != 0
    ensures InvertLowestOne(h - 2) % 8 == 0
    ensures InvertLowestOne(InvertLowestOne(h - 2)) % 16 == 0
  {
    hide InvertLowestOne;
    if h % 8 == 0 {
      PrevOfEights(h);
    } else if h % 4 == 0 {
      PrevOfFours(h);
    } else {
      PrevOfTwos(h);
    }
  }

  // ---------------------------------------------------------------- down to the middle

  // Where the walk goes from mid or above to below it, at most `land` steps are left.
  ghost predicate Lands(t: nat, mid: nat, land: nat) {
    forall h: nat | t <= h < mid :: WalkSteps(h, t) <= land
  }

  lemma LandsAt(h: nat, t: nat, mid: nat, land: nat)
    requires Lands(t, mid, land) && t < h && NextHeight(h, t) < mid
    ensures WalkSteps(h, t) <= 1 + land
  {
    hide NextHeight;
  }

  lemma {:induction false} EvenDown(h: nat, t: nat, mid: nat, j: nat, k: nat, land: nat)
    requires 1 <= k <= j && mid % Pow(2, j) == 0 && t < mid <= h < mid + Pow(2, j)
    requires h % 2 == 0 && mid % 2 == 0 && h % Pow(2, k) == 0
    requires Lands(t, mid, land)
    ensures WalkSteps(h, t) <= 2 * (j - k) + 1 + land
    decreases h
  {
    hide Pow, InvertLowestOne, Lands, WalkSteps, NextHeight;
    if h == mid {
      NextIsLower(h, t);
      LandsAt(h, t, mid, land);
    } else {
      Between(h, mid, j, k);
      ClearStays(h, mid, j);
      ClearDivides(h, k);
      ClearEven(h);
      var s := InvertLowestOne(h);
      EvenNext(h, t, s);
      if NextHeight(h, t) == s {
        EvenDown(s, t, mid, j, k + 1, land);
        OneStep(h, t);
      } else {
        EvenBack(h, t, mid, j, k, land);
      }
    }
  }

  lemma NextIsLower(h: nat, t: nat)
    requires t < h
    ensures t <= NextHeight(h, t) < h
  {
  }

  lemma OneStep(h: nat, t: nat)
    requires t < h
    ensures WalkSteps(h, t) == 1 + WalkSteps(NextHeight(h, t), t)
  {
    hide NextHeight;
  }

  lemma ClearEven(h: nat)
    ensures InvertLowestOne(h) % 2 == 0
  {
    hide Pow, InvertLowestOne;
    SmallPowers();
    ClearDivides(h, 0);
  }

  // From an even height: its skip, or its predecessor if that has the better one.
  lemma EvenNext(h: nat, t: nat, s: nat)
    requires h % 2 == 0 && t < h && s == InvertLowestOne(h) && t < s
    ensures NextHeight(h, t) == s ||
      (NextHeight(h, t) == h - 1 && h > 2
       && InvertLowestOne(InvertLowestOne(h - 2)) + 1 < s - 2 && t <= InvertLowestOne(InvertLowestOne(h - 2)) + 1)
  {
    EvenSkip(h);
    if h > 2 {
      EvenSkip(h - 2);
    }
    hide InvertLowestOne;
  }

  // Back to the predecessor and on by its skip.
  lemma EvenBack(h: nat, t: nat, mid: nat, j: nat, k: nat, land: nat)
    requires 1 <= k < j && mid % Pow(2, j) == 0 && t < mid < h < mid + Pow(2, j)
    requires h % 2 == 0 && mid % 2 == 0 && h % Pow(2, k) == 0
    requires Lands(t, mid, land) && NextHeight(h, t) == h - 1 && h > 2
    requires InvertLowestOne(InvertLowestOne(h - 2)) + 1 < InvertLowestOne(h) - 2
    requires t <= InvertLowestOne(InvertLowestOne(h - 2)) + 1
    ensures WalkSteps(h, t) <= 2 * (j - k) + 1 + land
    decreases h, 0
  {
    hide Pow, InvertLowestOne, Lands, WalkSteps, NextHeight;
    BetterPrev(h);
    SmallPower(h, k);
    OddSkips(h - 2, t);
    OneStep(h, t);
    var y := InvertLowestOne(h - 2);
    var x := InvertLowestOne(y);
    ClearsFall(h - 2);
    if x + 1 < mid {
      LandsAt(h - 1, t, mid, land);
    } else {
      OneStep(h - 1, t);
      Sixteenth(x);
      AtLeast(x, mid);
      ThirdBit(y, mid, j);
      OddDown(x, t, mid, j, 4, land);
    }
  }

  lemma Sixteenth(x: nat)
    requires x % 16 == 0
    ensures x % Pow(2, 4) == 0 && x % 2 == 0
  {
    hide Pow;
    SmallPowers();
    assert x == 2 * (8 * (x / 16));
    IsQuotient(x, 2, 8 * (x / 16), 0);
  }

  lemma AtLeast(x: nat, mid: nat)
    requires x % 2 == 0 && mid % 2 == 0 && mid <= x + 1
    ensures mid <= x
  {
  }

  lemma ThirdBit(y: nat, mid: nat, j: nat)
    requires mid % Pow(2, j) == 0 && mid < y < mid + Pow(2, j) && y % 8 == 0
    ensures j >= 4
  {
    hide Pow;
    SmallPowers();
    Between(y, mid, j, 3);
  }

  lemma SmallPower(h: nat, k: nat)
    requires h % 8 != 0 && h % Pow(2, k) == 0
    ensures k <= 2
  {
    hide Pow;
    if k >= 3 {
      SmallPowers();
      LowerPower(h, k, 3);
    }
  }

  lemma {:induction false} OddDown(x: nat, t: nat, mid: nat, j: nat, k: nat, land: nat)
    requires 1 <= k <= j && mid % Pow(2, j) == 0 && t < mid <= x < mid + Pow(2, j)
    requires x % 2 == 0 && mid % 2 == 0 && x % Pow(2, k) == 0
    requires Lands(t, mid, land)
    ensures WalkSteps(x + 1, t) <= 2 * (j - k) + 3 + land
    decreases x + 1, 1
  {
    hide Pow, InvertLowestOne, Lands, WalkSteps, NextHeight;
    var y := InvertLowestOne(x);
    var z := InvertLowestOne(y);
    ClearsFall(x);
    ClearEven(x);
    ClearEven(y);
    OneStep(x + 1, t);
    if z + 1 < t {
      OddGoesBack(x, t);
      EvenDown(x, t, mid, j, k, land);
    } else {
      OddSkips(x, t);
      if z + 1 < mid {
        LandsAt(x + 1, t, mid, land);
      } else {
        ClearDivides(x, k);
        ClearDivides(y, k + 1);
        LowerPower(z, k + 2, k + 1);
        Between(y, mid, j, k + 1);
        OddDown(z, t, mid, j, k + 1, land);
      }
    }
  }

  // ---------------------------------------------------------------- the whole walk

  // The heights share all bits from the n-th on.
  lemma {:induction false} SharedWalk(h: nat, t: nat, n: nat)
    requires t <= h && h / Pow(2, n) == t / Pow(2, n)
    ensures WalkSteps(h, t) <= n * n
    decreases n, 0
  {
    hide Pow, WalkSteps, Lands;
    if n == 0 {
      SmallPowers();
      NoSteps(h);
    } else {
      var q := Pow(2, n - 1);
      PowerNext(n);
      Squares(n);
      Halves(h, q);
      Halves(t, q);
      DivGrows(t, h, q);
      if h / q == t / q {
        SharedWalk(h, t, n - 1);
      } else {
        var mid := (h / q) * q;
        Middle(h, t, q, mid);
        SharedLands(t, mid, n - 1);
        FromMiddle(h, t, mid, n);
      }
    }
  }

  lemma SharedLands(t: nat, mid: nat, n: nat)
    requires mid % Pow(2, n) == 0 && t < mid && mid - Pow(2, n) <= t
    ensures Lands(t, mid, n * n)
    decreases n, 1
  {
    hide Pow, WalkSteps;
    forall g: nat | t <= g < mid ensures WalkSteps(g, t) <= n * n {
      Squeeze(t, g, Pow(2, n), mid);
      SharedWalk(g, t, n);
    }
  }

  lemma Squares(n: nat)
    requires n > 0
    ensures n * n == (n - 1) * (n - 1) + 2 * n - 1
  {
    Distributes(n - 1, n - 1, 1);
    Distributes(n, n - 1, 1);
  }

  lemma Halves(x: nat, q: nat)
    requires q > 0
    ensures x / (2 * q) == (x / q) / 2
  {
    DivDiv(x, q, 2);
    assert q * 2 == 2 * q;
  }

  lemma Middle(h: nat, t: nat, q: nat, mid: nat)
    requires q > 0 && t <= h && h / q == t / q + 1 && mid == (h / q) * q
    ensures mid % q == 0 && t < mid <= h < mid + q && mid - q <= t
  {
    DivMod(h, q);
    DivMod(t, q);
    IsQuotient(mid, q, h / q, 0);
    Distributes(q, t / q, 1);
  }

  lemma Squeeze(t: nat, g: nat, q: nat, mid: nat)
    requires q > 0 && t <= g < mid && mid % q == 0 && mid - q <= t
    ensures g / q == t / q
  {
    DivMod(mid, q);
    var b := mid / q - 1;
    Distributes(q, b, 1);
    if mid >= q {
      IsQuotient(t, q, b, t - (mid - q));
      IsQuotient(g, q, b, g - (mid - q));
    } else {
      IsQuotient(mid, q, 0, mid);
    }
  }

  lemma FromMiddle(h: nat, t: nat, mid: nat, n: nat)
    requires n > 0 && mid % Pow(2, n - 1) == 0 && t < mid <= h < mid + Pow(2, n - 1) && mid - Pow(2, n - 1) <= t
    requires Lands(t, mid, (n - 1) * (n - 1))
    ensures WalkSteps(h, t) <= n * n
  {
    hide Pow, Lands, WalkSteps, NextHeight;
    var land := (n - 1) * (n - 1);
    Squares(n);
    SmallPowers();
    if n == 1 {
      NextIsLower(h, t);
      LandsAt(h, t, mid, land);
    } else {
      LowerPower(mid, n - 1, 1);
      if h % 2 == 0 {
        EvenDown(h, t, mid, n - 1, 1, land);
      } else {
        OddDown(h - 1, t, mid, n - 1, 1, land);
      }
    }
  }

  // From a height of n bits to any lower one the walk takes at most n^2 steps.
  lemma WalkLength(h: nat, t: nat, n: nat)
    requires t <= h < Pow(2, n)
    ensures WalkSteps(h, t) <= n * n
  {
    hide Pow, WalkSteps;
    IsQuotient(h, Pow(2, n), 0, h);
    IsQuotient(t, Pow(2, n), 0, t);
    SharedWalk(h, t, n);
  }

  lemma NoSteps(h: nat)
    ensures WalkSteps(h, h) == 0
  {
  }

  lemma NoNegativeSquares()
    ensures forall bits: nat :: bits * bits >= 0
  {
    forall bits: nat ensures bits * bits >= 0 {
      Positive(bits, bits);
    }
  }
}

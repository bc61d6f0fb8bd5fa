/** Powers, the bitwise or, and the few facts of division that the arithmetic files share. */
module Numbers {
  type Byte = x: int | 0 <= x < 0x100
  type UInt32 = x: int | 0 <= x < 0x1_0000_0000

  function Pow(b: nat, n: nat): (p: nat)
    ensures b > 0 ==> p > 0
  {
    if n == 0 then 1 else b * Pow(b, n - 1)
  }

  lemma {:induction false} PowAdd(b: nat, m: nat, n: nat)
    ensures Pow(b, m + n) == Pow(b, m) * Pow(b, n)
  {
    if m == 0 {
      assert Pow(b, 0) * Pow(b, n) == Pow(b, n);
    } else {
      PowAdd(b, m - 1, n);
      Associates(b, Pow(b, m - 1), Pow(b, n));
    }
  }

  lemma Associates(a: int, b: int, c: int)
    ensures (a * b) * c == a * (b * c)
  {
  }

  lemma Distributes(a: int, b: int, c: int)
    ensures a * (b + c) == a * b + a * c && (b + c) * a == b * a + c * a
    ensures a * (b - c) == a * b - a * c && (b - c) * a == b * a - c * a
  {
  }

  lemma TimesGrows(a: nat, b: int, c: int)
    requires b <= c
    ensures a * b <= a * c && b * a <= c * a
  {
    Distributes(a, c, b);
    Positive(a, c - b);
  }

  lemma Positive(a: nat, b: nat)
    ensures a * b >= 0
  {
  }

  lemma {:induction false} PowGrows(b: nat, m: nat, n: nat)
    requires m <= n && b > 0
    ensures Pow(b, m) <= Pow(b, n)
  {
    PowAdd(b, m, n - m);
    TimesGrows(Pow(b, m), 1, Pow(b, n - m));
  }

  lemma PowersOfTwo()
    ensures Pow(2, 4) == 0x10 && Pow(2, 8) == 0x100 && Pow(2, 16) == 0x1_0000 && Pow(2, 32) == 0x1_0000_0000
  {
    assert Pow(2, 4) == 16;
    hide Pow;
    PowAdd(2, 4, 4);
    PowAdd(2, 8, 8);
    PowAdd(2, 16, 16);
  }

  // Quotient and remainder are what the definition of division says they are.
  lemma IsQuotient(a: int, d: nat, q: int, r: int)
    requires d > 0 && a == q * d + r && 0 <= r < d
    ensures a / d == q && a % d == r
  {
    var e := q - a / d;
    Distributes(d, q, a / d);
    assert a == (a / d) * d + a % d;
    assert e * d == a % d - r;
    if e >= 1 {
      TimesGrows(d, 1, e);
    } else if e <= -1 {
      TimesGrows(d, e, -1);
    }
  }

  lemma DivMod(a: int, d: nat)
    requires d > 0
    ensures a == (a / d) * d + a % d && 0 <= a % d < d
    ensures a >= 0 ==> a / d >= 0
  {
    if a >= 0 && a / d < 0 {
      TimesGrows(d, a / d, -1);
    }
  }

  // A multiple of the modulus does not change the remainder.
  lemma ModShift(a: int, q: int, d: nat)
    requires d > 0
    ensures (a + q * d) % d == a % d
  {
    DivMod(a, d);
    Distributes(d, a / d, q);
    IsQuotient(a + q * d, d, a / d + q, a % d);
  }

  lemma DivDiv(a: nat, b: nat, c: nat)
    requires b > 0 && c > 0
    ensures b * c > 0 && a / (b * c) == (a / b) / c
  {
    TimesGrows(b, 1, c);
    DivMod(a, b);
    var q := a / b;
    DivMod(q, c);
    var r := (q % c) * b + a % b;
    Associates(q / c, c, b);
    assert c * b == b * c;
    Distributes(b, (q / c) * c, q % c);
    assert a == (q / c) * (b * c) + r;
    TimesGrows(b, q % c, c - 1);
    Distributes(b, c, 1);
    Positive(b, q % c);
    IsQuotient(a, b * c, q / c, r);
  }

  // x < k * d exactly when the quotient is below k.
  lemma DivBelow(a: nat, d: nat, k: nat)
    requires d > 0
    ensures a < k * d <==> a / d < k
  {
    DivMod(a, d);
    if a / d < k {
      TimesGrows(d, a / d, k - 1);
      Distributes(d, k, 1);
    } else {
      TimesGrows(d, k, a / d);
    }
  }

  lemma DivGrows(a: nat, b: nat, d: nat)
    requires a <= b && d > 0
    ensures a / d <= b / d
  {
    DivMod(a, d);
    DivMod(b, d);
    if a / d > b / d {
      TimesGrows(d, b / d + 1, a / d);
      Distributes(d, b / d, 1);
    }
  }

  // ---------------------------------------------------------------- the bitwise or

  function Or(x: nat, y: nat): nat
    decreases x
  {
    if x == 0 then y
    else 2 * Or(x / 2, y / 2) + (if x % 2 == 1 || y % 2 == 1 then 1 else 0)
  }

  // Or of a number below 2^s with a multiple of 2^s is their sum.
  lemma {:induction false} OrDisjoint(x: nat, y: nat, s: nat)
    requires x < Pow(2, s)
    ensures Or(x, y * Pow(2, s)) == x + y * Pow(2, s)
    ensures Or(y * Pow(2, s), x) == x + y * Pow(2, s)
  {
    if s == 0 {
      OrZero(y * Pow(2, 0));
    } else {
      var p := Pow(2, s - 1);
      OrDisjoint(x / 2, y, s - 1);
      assert y * (2 * p) == 2 * (y * p) by { Associates(y, 2, p); Associates(2, y, p); }
      OrEven(x, y * p);
    }
  }

  lemma {:induction false} OrZero(x: nat)
    ensures Or(x, 0) == x && Or(0, x) == x
  {
    if x != 0 {
      OrZero(x / 2);
    }
  }

  lemma OrEven(x: nat, z: nat)
    ensures Or(x, 2 * z) == 2 * Or(x / 2, z) + x % 2
    ensures Or(2 * z, x) == 2 * Or(z, x / 2) + x % 2
  {
    assert (2 * z) / 2 == z && (2 * z) % 2 == 0;
    var lo := if x % 2 == 1 || (2 * z) % 2 == 1 then 1 else 0;
    assert lo == x % 2;
    if x != 0 {
      assert Or(x, 2 * z) == 2 * Or(x / 2, (2 * z) / 2) + lo;
    }
    if z != 0 {
      assert Or(2 * z, x) == 2 * Or((2 * z) / 2, x / 2) + lo;
    }
  }

  // Or with a single bit that is not set adds it.
  lemma {:induction false} OrBit(x: nat, b: nat)
    requires (x / Pow(2, b)) % 2 == 0
    ensures Or(x, Pow(2, b)) == x + Pow(2, b)
  {
    if b == 0 {
      assert Pow(2, 0) == 1;
      OrZero(x / 2);
      if x != 0 {
        assert Or(x, 1) == 2 * Or(x / 2, 1 / 2) + 1;
      }
    } else {
      var q := Pow(2, b - 1);
      DivDiv(x, 2, q);
      OrBit(x / 2, b - 1);
      OrEven(x, q);
    }
  }

  // ---------------------------------------------------------------- single bits

  predicate BitSet(x: nat, p: nat) {
    (x / Pow(2, p)) % 2 == 1
  }

  // A bit above the ones looked at does not change them.
  lemma HigherBit(x: nat, n: nat)
    requires x < Pow(2, n)
    ensures BitSet(x + Pow(2, n), n) && !BitSet(x, n)
  {
    hide Pow;
    IsQuotient(x + Pow(2, n), Pow(2, n), 1, x);
    IsQuotient(x, Pow(2, n), 0, x);
  }

  lemma LowerBit(x: nat, n: nat, p: nat)
    requires p < n
    ensures BitSet(x + Pow(2, n), p) == BitSet(x, p)
  {
    var q := Pow(2, n - p - 1);
    PowAdd(2, n - p - 1, p + 1);
    assert Pow(2, p + 1) == 2 * Pow(2, p);
    hide Pow;
    Doubled(x, Pow(2, p), q);
  }

  lemma Doubled(x: nat, d: nat, q: nat)
    requires d > 0
    ensures ((x + q * (2 * d)) / d) % 2 == (x / d) % 2
  {
    DivMod(x, d);
    Associates(q, 2, d);
    Distributes(d, x / d, q * 2);
    IsQuotient(x + q * (2 * d), d, x / d + q * 2, x % d);
  }

  lemma BitShift(x: nat, p: nat)
    ensures BitSet(x, p + 1) == BitSet(x / 2, p)
    ensures BitSet(x, 0) == (x % 2 == 1)
  {
    DivDiv(x, 2, Pow(2, p));
  }

  lemma {:induction false} BitOfOr(x: nat, y: nat, p: nat)
    ensures BitSet(Or(x, y), p) <==> BitSet(x, p) || BitSet(y, p)
    decreases p
  {
    var z := Or(x, y);
    OrHalves(x, y);
    if p == 0 {
      BitShift(x, 0);
      BitShift(y, 0);
      BitShift(z, 0);
    } else {
      BitShift(x, p - 1);
      BitShift(y, p - 1);
      BitShift(z, p - 1);
      BitOfOr(x / 2, y / 2, p - 1);
    }
  }

  lemma OrHalves(x: nat, y: nat)
    ensures Or(x, y) / 2 == Or(x / 2, y / 2)
    ensures Or(x, y) % 2 == 1 <==> x % 2 == 1 || y % 2 == 1
  {
  }

  lemma {:induction false} OrBelow(x: nat, y: nat, n: nat)
    requires x < Pow(2, n) && y < Pow(2, n)
    ensures Or(x, y) < Pow(2, n)
  {
    if n > 0 {
      OrBelow(x / 2, y / 2, n - 1);
      OrHalves(x, y);
    }
  }

  // Setting a bit of a byte gives a byte.
  lemma ByteWithBit(x: Byte, p: nat)
    requires p < 8
    ensures Or(x, Pow(2, p)) < 0x100
  {
    PowersOfTwo();
    PowGrows(2, p + 1, 8);
    OrBelow(x, Pow(2, p), 8);
  }

  // A power of two has one bit.
  lemma BitOfPower(p: nat, q: nat)
    ensures BitSet(Pow(2, p), q) <==> p == q
  {
    if q < p {
      LowerBit(0, p, q);
      IsQuotient(0, Pow(2, q), 0, 0);
    } else if q == p {
      HigherBit(0, p);
    } else {
      PowGrows(2, p + 1, q);
      IsQuotient(Pow(2, p), Pow(2, q), 0, Pow(2, p));
    }
  }
}

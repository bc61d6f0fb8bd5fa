/** The amount compression of CTxOutCompressor, on unsigned 64-bit integers. */
module Amounts {
  import opened Numbers

  const TWO_64 := 0x1_0000_0000_0000_0000

  // Dividing by ten for as long as it comes out even, nine times at most.
  function Strip(n: nat, e: nat): (r: (nat, nat))
    requires n > 0 && e <= 9
    ensures r.0 > 0 && e <= r.1 <= 9 && r.0 <= n
    ensures r.1 < 9 ==> r.0 % 10 != 0
    decreases 9 - e
  {
    if n % 10 == 0 && e < 9 then Strip(n / 10, e + 1) else (n, e)
  }

  // The code of a number and its power of ten.
  function CodeOf(m: nat, e: nat): (x: nat)
    requires m > 0 && (e < 9 ==> m % 10 != 0)
    ensures x > 0
  {
    if e < 9 then 1 + (m / 10 * 9 + m % 10 - 1) * 10 + e else 1 + (m - 1) * 10 + 9
  }

  function Compressed(n: nat): nat {
    if n == 0 then 0 else CodeOf(Strip(n, 0).0, Strip(n, 0).1)
  }

  // The number and its power of ten that a code stands for.
  function Base(x: nat): nat
    requires x > 0
  {
    var y := (x - 1) / 10;
    if (x - 1) % 10 < 9 then y / 9 * 10 + y % 9 + 1 else y + 1
  }

  function Decompressed(x: nat): nat {
    if x == 0 then 0 else
      Positive(Base(x), Pow(10, (x - 1) % 10));
      Base(x) * Pow(10, (x - 1) % 10)
  }

  lemma {:induction false} StripScales(n: nat, e: nat)
    requires n > 0 && e <= 9
    ensures Strip(n, e).0 * Pow(10, Strip(n, e).1 - e) == n
    decreases 9 - e
  {
    if n % 10 == 0 && e < 9 {
      var (m, f) := Strip(n / 10, e + 1);
      StripScales(n / 10, e + 1);
      var p := Pow(10, f - (e + 1));
      assert Pow(10, f - e) == 10 * p;
      assert m * (10 * p) == 10 * (m * p) by { Associates(m, 10, p); Associates(10, m, p); }
    } else {
      assert Pow(10, 0) == 1;
    }
  }

  // Tens multiplied on come off again, up to the limit.
  lemma {:induction false} StripUndoes(m: nat, k: nat, e: nat)
    requires m > 0 && e + k <= 9 && (e + k < 9 ==> m % 10 != 0)
    ensures m * Pow(10, k) > 0 && Strip(m * Pow(10, k), e) == (m, e + k)
    decreases k
  {
    if k == 0 {
      assert m * Pow(10, 0) == m;
    } else {
      var p := Pow(10, k - 1);
      assert Pow(10, k) == 10 * p;
      hide Pow, Strip;
      StripUndoes(m, k - 1, e + 1);
      assert m * (10 * p) == 10 * (m * p) by { Associates(m, 10, p); Associates(10, m, p); }
      StripTen(m * p, e);
    }
  }

  lemma StripTen(n: nat, e: nat)
    requires n > 0 && e < 9
    ensures Strip(10 * n, e) == Strip(n, e + 1)
  {
    IsQuotient(10 * n, 10, n, 0);
  }

  // A code takes apart into what it was made of, and back.
  lemma TakesApart(m: nat, e: nat)
    requires m > 0 && e <= 9 && (e < 9 ==> m % 10 != 0)
    ensures (CodeOf(m, e) - 1) % 10 == e && Base(CodeOf(m, e)) == m
  {
    if e < 9 {
      var y := m / 10 * 9 + (m % 10 - 1);
      assert y / 9 == m / 10 && y % 9 == m % 10 - 1;
    }
  }

  lemma PutsTogether(x: nat)
    requires x > 0
    ensures Base(x) > 0 && ((x - 1) % 10 < 9 ==> Base(x) % 10 != 0)
    ensures CodeOf(Base(x), (x - 1) % 10) == x
  {
  }

  lemma DecompressCompress(n: nat)
    ensures Decompressed(Compressed(n)) == n
  {
    if n > 0 {
      hide Strip, CodeOf, Base, Pow;
      StripScales(n, 0);
      TakesApart(Strip(n, 0).0, Strip(n, 0).1);
    }
  }

  lemma CompressDecompress(x: nat)
    ensures Compressed(Decompressed(x)) == x
  {
    if x > 0 {
      hide Strip, CodeOf, Base, Pow;
      PutsTogether(x);
      StripUndoes(Base(x), (x - 1) % 10, 0);
    }
  }

  // No valid amount needs more than 64 bits.
  lemma MoneyFits(n: nat)
    requires n <= 1_261_440_000_000_000
    ensures Compressed(n) < TWO_64
  {
  }

  // ---------------------------------------------------------------- the methods

  // The multiplication and addition may wrap around; the result is exact when the code fits.
  method CompressAmount(amount: nat) returns (r: nat)
    requires amount < TWO_64
    ensures r == Compressed(amount) % TWO_64
  {
    if amount == 0 {
      return 0;
    }
    hide Strip;
    var n, e := amount, 0;
    while n % 10 == 0 && e < 9
      invariant 0 < n <= amount && 0 <= e <= 9 && Strip(n, e) == Strip(amount, 0)
    {
      n := n / 10;
      e := e + 1;
    }
    if e < 9 {
      r := Wrapped(n, e);
    } else {
      r := (1 + (n - 1) * 10 + 9) % TWO_64;
    }
  }

  // 1 + (n*9 + d - 1)*10 + e in 64 bits: only the multiplication by ten can wrap around.
  method Wrapped(amount: nat, e: nat) returns (r: nat)
    requires 0 < amount < TWO_64 && e < 9 && amount % 10 != 0
    ensures r == CodeOf(amount, e) % TWO_64
  {
    var d := amount % 10;
    assert 1 <= d <= 9;
    var n := amount / 10;
    var y := n * 9 + d - 1;
    assert y < TWO_64;
    r := (1 + y * 10 + e) % TWO_64;
  }

  method DecompressAmount(code: nat) returns (r: nat)
    requires code < TWO_64
    ensures r == Decompressed(code) % TWO_64
  {
    if code == 0 {
      return 0;
    }
    var x := code - 1;
    var e := x % 10;
    x := x / 10;
    var n: nat := 0;
    if e < 9 {
      var d := x % 9 + 1;
      x := x / 9;
      n := x * 10 + d;
    } else {
      n := x + 1;
    }
    ghost var k: nat := 0;
    assert Pow(10, 0) == 1;
    while e != 0
      invariant 0 <= e && e + k == (code - 1) % 10 && n < TWO_64
      invariant n == (Base(code) * Pow(10, k)) % TWO_64
      decreases e
    {
      WrapTimesTen(Base(code), Pow(10, k));
      n := n * 10 % TWO_64;
      e := e - 1;
      k := k + 1;
    }
    r := n;
  }

  lemma WrapTimesTen(b: nat, p: nat)
    ensures (b * p) % TWO_64 * 10 % TWO_64 == (b * (10 * p)) % TWO_64
  {
    var v := b * p;
    assert b * (10 * p) == v * 10 by { Associates(b, 10, p); Associates(10, b, p); }
    DivMod(v, TWO_64);
    assert v * 10 == v % TWO_64 * 10 + (v / TWO_64 * 10) * TWO_64;
    ModShift(v % TWO_64 * 10, v / TWO_64 * 10, TWO_64);
  }
}

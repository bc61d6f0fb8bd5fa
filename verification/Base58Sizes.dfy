/** Why the digit buffers of EncodeBase58 and DecodeBase58 are always large enough. */
module Base58Sizes {
  import opened Numbers

  lemma {:induction false} PowPow(b: nat, m: nat, n: nat)
    ensures Pow(Pow(b, m), n) == Pow(b, m * n)
  {
    if n == 0 {
      assert m * 0 == 0;
    } else {
      PowPow(b, m, n - 1);
      PowAdd(b, m, m * (n - 1));
      Distributes(m, n, 1);
    }
  }

  lemma {:induction false} PowBelow(a: nat, b: nat, n: nat)
    requires a < b && n > 0
    ensures Pow(a, n) < Pow(b, n)
  {
    if n == 1 {
      assert Pow(a, 0) == 1 && Pow(b, 0) == 1;
    } else {
      PowBelow(a, b, n - 1);
      TimesGrows(a, Pow(a, n - 1), Pow(b, n - 1));
      TimesGrows(Pow(b, n - 1), a + 1, b);
      Distributes(Pow(b, n - 1), a, 1);
    }
  }

  // From one exact comparison a^p <= b^q: m digits in base a fit in n digits in base b
  // whenever m / p <= n / q.
  lemma Fits(a: nat, p: nat, b: nat, q: nat, m: nat, n: nat)
    requires a > 0 && b > 0 && p > 0 && Pow(a, p) <= Pow(b, q) && m * q <= n * p
    ensures Pow(a, m) <= Pow(b, n)
  {
    hide Pow;
    SwapPowers(a, m, p);
    PowMonotone(Pow(a, p), Pow(b, q), m);
    PowPow(b, q, m);
    Commutes(q, m);
    PowGrows(b, m * q, n * p);
    PowPow(b, n, p);
    Root(Pow(a, m), Pow(b, n), p);
  }

  lemma Commutes(a: int, b: int)
    ensures a * b == b * a
  {
  }

  lemma SwapPowers(a: nat, m: nat, p: nat)
    ensures Pow(Pow(a, m), p) == Pow(Pow(a, p), m)
  {
    PowPow(a, m, p);
    PowPow(a, p, m);
    Commutes(m, p);
  }

  lemma Root(a: nat, b: nat, n: nat)
    requires n > 0 && Pow(a, n) <= Pow(b, n)
    ensures a <= b
  {
    if b < a {
      PowBelow(b, a, n);
    }
  }

  lemma PowMonotone(a: nat, b: nat, n: nat)
    requires a <= b
    ensures Pow(a, n) <= Pow(b, n)
  {
    if a < b && n > 0 {
      PowBelow(a, b, n);
    }
  }

  // 138/100 exceeds log(256)/log(58): 256^8 <= 58^11.
  lemma EncodeFits(m: nat)
    ensures Pow(256, m) <= Pow(58, m * 138 / 100 + 1)
  {
    assert Pow(256, 8) <= Pow(58, 11) by {
      assert Pow(256, 2) == 256 * 256 && Pow(58, 2) == 58 * 58 && Pow(58, 3) == 58 * Pow(58, 2);
      PowAdd(256, 2, 2);
      PowAdd(256, 4, 4);
      PowAdd(58, 2, 2);
      PowAdd(58, 4, 4);
      PowAdd(58, 8, 3);
    }
    Fits(256, 8, 58, 11, m, m * 138 / 100 + 1);
  }

  // 733/1000 exceeds log(58)/log(256): 58^71 <= 256^52.
  lemma DecodeFits(m: nat)
    ensures Pow(58, m) <= Pow(256, m * 733 / 1000 + 1)
  {
    Power71();
    Fits(58, 71, 256, 52, m, m * 733 / 1000 + 1);
  }

  lemma Power71()
    ensures Pow(58, 71) <= Pow(256, 52)
  {
    hide Pow;
    Power58();
    Power256();
    PowAdd(58, 64, 7);
  }

  lemma SmallPower58()
    ensures Pow(58, 2) == 3364 && Pow(58, 3) == 195112
  {
    assert Pow(58, 3) == 58 * Pow(58, 2);
  }

  lemma Power58()
    ensures Pow(58, 7) == 2207984167552 && Pow(58, 64) == 0x7853026ae25f4ce0c69893e6f1f86f67aef4db69563516064adeb967a9d66f4fe64b09ec94e5010000000000000000
  {
    hide Pow;
    SmallPower58();
    PowAdd(58, 2, 2);
    PowAdd(58, 4, 3);
    PowAdd(58, 4, 4);
    PowAdd(58, 8, 8);
    PowAdd(58, 16, 16);
    PowAdd(58, 32, 32);
  }

  lemma Power256()
    ensures Pow(256, 52) == 0x100000000000000000000000000000000000000000000000000000000000000000000000000000000000000000000000000000000
  {
    hide Pow;
    Power256Low();
    PowAdd(256, 16, 16);
    PowAdd(256, 32, 16);
    PowAdd(256, 48, 4);
  }

  lemma Power256Low()
    ensures Pow(256, 4) == 0x100000000 && Pow(256, 16) == 0x100000000000000000000000000000000
  {
    assert Pow(256, 2) == 0x1_0000;
    hide Pow;
    PowAdd(256, 2, 2);
    PowAdd(256, 4, 4);
    PowAdd(256, 8, 8);
  }
}

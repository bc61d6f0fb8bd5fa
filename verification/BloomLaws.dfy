/** The seeds of a filter's hashes, and how much of the history the rolling filter asks. */
module BloomLaws {
  import opened Numbers
  import opened Bloom
  import opened BloomRolling

  // The seeds start at the tweak and go up by 0xFBA4C795 in 32 bits.
  function Seed(nTweak: UInt32, i: nat): UInt32 {
    if i == 0 then nTweak else (Seed(nTweak, i - 1) + 4_221_880_213) % 4_294_967_296
  }

  lemma {:induction false} SeedIs(nTweak: UInt32, i: nat)
    ensures Seed(nTweak, i) == (i * 4_221_880_213 + nTweak) % 4_294_967_296
  {
    if i > 0 {
      SeedIs(nTweak, i - 1);
      Wraps((i - 1) * 4_221_880_213 + nTweak, 4_221_880_213, 4_294_967_296);
    }
  }

  lemma Wraps(a: nat, b: nat, d: nat)
    requires d > 0
    ensures (a % d + b) % d == (a + b) % d
  {
    DivMod(a, d);
    DivMod(a + b, d);
    var q := (a + b) / d - a / d;
    Distributes(d, (a + b) / d, a / d);
    assert a % d + b == q * d + (a + b) % d;
    IsQuotient(a % d + b, d, q, (a + b) % d);
  }

  // Hash number i of a key: Murmur with that seed, modulo the number of bits.
  lemma HashIs(f: CBloomFilter, i: nat, key: Key)
    requires f.vData.Length > 0
    ensures f.Hash(i, key) == f.murmur(Seed(f.nTweak, i), key) % (8 * f.vData.Length)
  {
    SeedIs(f.nTweak, i);
  }

  // After k keys the filter asked holds exactly the last n of them and what came since the last
  // change of filters; so never as many as 2n.
  lemma AskedHoldsExactly(k: nat, n: nat)
    requires n > 0
    ensures (if k % (2 * n) < n then Held2(k, n) else Held1(k, n)) == if k < n then k else n + k % n
  {
    DivMod(k, 2 * n);
    var q, r := k / (2 * n), k % (2 * n);
    Associates(q, 2, n);
    if r < n {
      IsQuotient(k, n, q * 2, r);
    } else {
      assert (q * 2 + 1) * n == q * 2 * n + n by { Distributes(n, q * 2, 1); }
      IsQuotient(k, n, q * 2 + 1, r - n);
    }
    if k < n {
      IsQuotient(k, 2 * n, 0, k);
    } else {
      ModMinus(k, n);
    }
  }
}

/** Numbers written in a base, most significant digit first. */
module Radix {
  import opened Numbers

  predicate AreDigits(s: seq<nat>, base: nat) {
    forall i | 0 <= i < |s| :: s[i] < base
  }

  // The number a sequence of digits stands for.
  function Number(s: seq<nat>, base: nat): (n: nat) {
    if s == [] then 0 else
      Positive(Number(s[..|s| - 1], base), base);
      Number(s[..|s| - 1], base) * base + s[|s| - 1]
  }

  // The digits of a number, without leading zeros.
  function Digits(n: nat, base: nat): (s: seq<nat>)
    requires base > 1
  {
    if n == 0 then [] else
      QuotientShrinks(n, base);
      Digits(n / base, base) + [n % base]
  }

  lemma QuotientShrinks(n: nat, base: nat)
    requires n > 0 && base > 1
    ensures 0 <= n / base < n
  {
    DivMod(n, base);
    DivBelow(n, base, n);
    TimesGrows(n, 2, base);
  }

  lemma {:induction false} DigitsAreDigits(n: nat, base: nat)
    requires base > 1
    ensures AreDigits(Digits(n, base), base)
    ensures n > 0 <==> Digits(n, base) != []
    ensures n > 0 ==> Digits(n, base)[0] > 0
  {
    if n > 0 {
      QuotientShrinks(n, base);
      DigitsAreDigits(n / base, base);
      DivMod(n, base);
      if n / base == 0 {
        assert 0 * base == 0;
      }
    }
  }

  lemma {:induction false} NumberOfDigits(n: nat, base: nat)
    requires base > 1
    ensures Number(Digits(n, base), base) == n
  {
    if n > 0 {
      QuotientShrinks(n, base);
      NumberOfDigits(n / base, base);
      var d := Digits(n / base, base) + [n % base];
      assert d[..|d| - 1] == Digits(n / base, base);
      DivMod(n, base);
    }
  }

  // Digits that do not start with zero are the digits of their number.
  lemma {:induction false} DigitsOfNumber(s: seq<nat>, base: nat)
    requires base > 1 && AreDigits(s, base) && (s != [] ==> s[0] > 0)
    ensures s != [] ==> Number(s, base) > 0
    ensures Digits(Number(s, base), base) == s
  {
    if s != [] {
      var n := |s| - 1;
      DigitsOfNumber(s[..n], base);
      IsQuotient(Number(s, base), base, Number(s[..n], base), s[n]);
      if n > 0 {
        TimesGrows(base, 1, Number(s[..n], base));
      } else {
        assert 0 * base == 0;
      }
      assert s == s[..n] + [s[n]];
    }
  }

  lemma {:induction false} NumberBound(s: seq<nat>, base: nat)
    requires base > 0 && AreDigits(s, base)
    ensures Number(s, base) < Pow(base, |s|)
  {
    if s != [] {
      var n := |s| - 1;
      NumberBound(s[..n], base);
      TimesGrows(base, Number(s[..n], base), Pow(base, n) - 1);
      Distributes(base, Pow(base, n), 1);
    }
  }

  lemma {:induction false} NumberSplit(s: seq<nat>, base: nat, k: nat)
    requires base > 0 && k <= |s|
    ensures Number(s, base) == Number(s[..k], base) * Pow(base, |s| - k) + Number(s[k..], base)
    decreases |s|
  {
    var n := |s| - 1;
    if k == |s| {
      assert s[..k] == s && s[k..] == [];
      assert Pow(base, 0) == 1;
    } else {
      NumberSplit(s[..n], base, k);
      assert s[..n][..k] == s[..k];
      assert s[k..][..n - k] == s[..n][k..] && s[k..][n - k] == s[n];
      var p := Pow(base, n - k);
      assert Pow(base, n - k + 1) == base * p;
      Distributes(base, Number(s[..k], base) * p, Number(s[..n][k..], base));
      Associates(Number(s[..k], base), p, base);
    }
  }

  lemma {:induction false} NumberOfZeros(s: seq<nat>, base: nat)
    requires base > 0 && forall i | 0 <= i < |s| :: s[i] == 0
    ensures Number(s, base) == 0
  {
    if s != [] {
      NumberOfZeros(s[..|s| - 1], base);
      assert 0 * base == 0;
    }
  }

  // A leading digit has the weight of the digits below it.
  lemma NumberCons(s: seq<nat>, base: nat)
    requires s != [] && base > 0
    ensures Number(s, base) == s[0] * Pow(base, |s| - 1) + Number(s[1..], base)
  {
    NumberSplit(s, base, 1);
    assert s[..1][..0] == [];
    assert Number(s[..1], base) == 0 * base + s[0];
  }
}

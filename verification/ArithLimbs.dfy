/** The number an array of 32-bit limbs stands for, least significant limb first. */
module Limbs {
  import opened Numbers

  const BASE := 0x1_0000_0000

  // The weight of limb k.
  function Unit(k: nat): (p: nat)
    ensures p > 0
  {
    Pow(2, 32 * k)
  }

  function Val(s: seq<UInt32>): nat {
    if s == [] then 0 else Val(s[..|s| - 1]) + s[|s| - 1] * Unit(|s| - 1)
  }

  lemma BaseIsPower()
    ensures Pow(2, 32) == BASE
  {
    PowersOfTwo();
  }

  lemma UnitStep(k: nat)
    ensures Unit(k + 1) == BASE * Unit(k)
  {
    BaseIsPower();
    PowAdd(2, 32, 32 * k);
  }

  lemma UnitAdd(j: nat, k: nat)
    ensures Unit(j + k) == Unit(j) * Unit(k)
  {
    PowAdd(2, 32 * j, 32 * k);
  }

  lemma {:induction false} ValBound(s: seq<UInt32>)
    ensures Val(s) < Unit(|s|)
  {
    if s != [] {
      var n := |s| - 1;
      ValBound(s[..n]);
      UnitStep(n);
      TimesGrows(Unit(n), s[n], BASE - 1);
      Distributes(Unit(n), BASE, 1);
    }
  }

  lemma ValNext(s: seq<UInt32>, i: nat)
    requires i < |s|
    ensures Val(s[..i + 1]) == Val(s[..i]) + s[i] * Unit(i)
  {
    assert s[..i + 1][..i] == s[..i];
  }

  // Changing one limb changes the number by the difference at that limb's weight.
  lemma {:induction false} ValUpdate(s: seq<UInt32>, m: nat, x: UInt32)
    requires m < |s|
    ensures Val(s[m := x]) == Val(s) + (x - s[m]) * Unit(m)
  {
    var n := |s| - 1;
    if m == n {
      assert s[m := x][..n] == s[..n];
      Distributes(Unit(n), x, s[n]);
    } else {
      ValUpdate(s[..n], m, x);
      assert s[m := x][..n] == s[..n][m := x];
    }
  }

  lemma {:induction false} ValSplit(s: seq<UInt32>, k: nat)
    requires k <= |s|
    ensures Val(s) == Val(s[..k]) + Unit(k) * Val(s[k..])
    decreases |s|
  {
    var n := |s| - 1;
    if k == |s| {
      assert s[..k] == s && s[k..] == [];
    } else {
      ValSplit(s[..n], k);
      assert s[..n][..k] == s[..k];
      assert s[..n][k..] == s[k..][..n - k];
      assert s[k..][n - k] == s[n];
      UnitAdd(k, n - k);
      Distributes(Unit(k), Val(s[k..][..n - k]), s[n] * Unit(n - k));
      Associates(s[n], Unit(k), Unit(n - k));
      Associates(Unit(k), s[n], Unit(n - k));
    }
  }

  lemma {:induction false} ValZero(s: seq<UInt32>)
    ensures Val(s) == 0 <==> forall k | 0 <= k < |s| :: s[k] == 0
  {
    if s != [] {
      var n := |s| - 1;
      ValZero(s[..n]);
      assert forall k | 0 <= k < n :: s[..n][k] == s[k];
      if s[n] != 0 {
        TimesGrows(Unit(n), 1, s[n]);
      } else {
        assert 0 * Unit(n) == 0;
      }
    }
  }

  // The highest limb that differs decides the order.
  lemma ValLess(s: seq<UInt32>, t: seq<UInt32>, i: nat)
    requires |s| == |t| && i < |s| && s[i] < t[i] && s[i + 1..] == t[i + 1..]
    ensures Val(s) < Val(t)
  {
    hide Val, Unit;
    ValSplit(s, i + 1);
    ValSplit(t, i + 1);
    ValNext(s, i);
    ValNext(t, i);
    ValBound(s[..i]);
    TimesGrows(Unit(i), s[i] + 1, t[i]);
    Distributes(Unit(i), s[i], 1);
  }
}

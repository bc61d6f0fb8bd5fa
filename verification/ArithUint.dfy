/** base_uint<256>: in-place arithmetic on eight 32-bit limbs.  Every operator is proved
    against the integers modulo 2^256. */
module ArithUint {
  import opened Numbers
  import opened Limbs
  import opened Compact

  const WIDTH: nat := 8

  function Modulus(): (m: nat)
    ensures m > 0
  {
    Unit(WIDTH)
  }

  // The number in the low i limbs and a carry into limb i.
  function Prefix(s: seq<UInt32>, i: nat, carry: nat): nat
    requires i <= |s|
  {
    Val(s[..i]) + carry * Unit(i)
  }

  // Limb i is overwritten with n mod 2^32 and the rest of n is carried on.
  lemma PrefixNext(before: seq<UInt32>, s: seq<UInt32>, i: nat, carry: nat, n: nat)
    requires i < |s| == |before| && s == before[i := n % BASE]
    ensures Prefix(s, i + 1, n / BASE) == Prefix(before, i, carry) + (n - carry) * Unit(i)
  {
    hide Val, Unit, Pow;
    ValNext(s, i);
    assert s[..i] == before[..i];
    UnitStep(i);
    Associates(n / BASE, BASE, Unit(i));
    Distributes(Unit(i), (n / BASE) * BASE, n % BASE);
    Distributes(Unit(i), n, carry);
    assert n == (n / BASE) * BASE + n % BASE;
  }

  lemma PrefixEmpty(s: seq<UInt32>, carry: nat)
    ensures Prefix(s, 0, carry) == carry
  {
    assert carry * 1 == carry;
  }

  lemma PrefixFull(s: seq<UInt32>)
    ensures Prefix(s, |s|, 0) == Val(s)
  {
    assert s[..|s|] == s;
  }

  lemma BelowModulus(s: seq<UInt32>)
    requires |s| == WIDTH
    ensures Val(s) < Modulus()
  {
    ValBound(s);
  }

  // A carry out of the top limb is dropped.
  lemma PrefixAll(s: seq<UInt32>, carry: nat, w: int)
    requires |s| == WIDTH && Prefix(s, WIDTH, carry) == w
    ensures Val(s) == w % Modulus()
  {
    hide Val, Unit, Pow;
    assert s[..WIDTH] == s;
    ValBound(s);
    IsQuotient(w, Unit(WIDTH), carry, Val(s));
  }

  // One more row of the product.
  lemma NextRow(a: seq<UInt32>, j: nat, b: nat, before: nat, after: nat, dropped: int, overflow: int, m: nat)
    requires j < |a|
    requires before + dropped * m == Prefix(a, j, 0) * b
    requires after + overflow * m == before + (a[j] * Unit(j)) * b
    ensures after + (dropped + overflow) * m == Prefix(a, j + 1, 0) * b
  {
    hide Val, Unit, Pow, Prefix;
    PrefixNext(a, a, j, 0, a[j]);
    Distributes(b, Prefix(a, j, 0), a[j] * Unit(j));
    Distributes(m, dropped, overflow);
  }

  // ---------------------------------------------------------------- a number times itself

  // The square is a multiple of 4^n exactly when the number is one of 2^n.
  lemma {:induction false} SquareDivides(v: nat, n: nat)
    ensures (v * v) % Pow(2, 2 * n) == 0 <==> v % Pow(2, n) == 0
  {
    if n == 0 {
      assert Pow(2, 0) == 1;
    } else {
      var w := v / 2;
      assert Pow(2, 2 * n) == 2 * (2 * Pow(2, 2 * (n - 1)));
      assert Pow(2, n) == 2 * Pow(2, n - 1);
      SquareDivides(w, n - 1);
      HalfSquare(v, w, Pow(2, 2 * (n - 1)), Pow(2, n - 1));
    }
  }

  lemma HalfSquare(v: nat, w: nat, p: nat, q: nat)
    requires w == v / 2 && p > 0 && q > 0
    ensures v % 2 == 0 ==> ((v * v) % (2 * (2 * p)) == 0 <==> (w * w) % p == 0)
    ensures v % 2 == 0 ==> (v % (2 * q) == 0 <==> w % q == 0)
    ensures v % 2 == 1 ==> (v * v) % (2 * (2 * p)) != 0 && v % (2 * q) != 0
  {
    Square(v, w);
    if v % 2 == 0 {
      DoubleDivides(2 * (w * w), 2 * p);
      DoubleDivides(w * w, p);
      DoubleDivides(w, q);
    } else {
      OddDividesNot(2 * (w * w) + 2 * w, 2 * p);
      OddDividesNot(w, q);
    }
  }

  lemma Square(v: nat, w: nat)
    requires w == v / 2
    ensures v * v == if v % 2 == 0 then 2 * (2 * (w * w)) else 2 * (2 * (w * w) + 2 * w) + 1
  {
    SquareOfDouble(w);
    if v % 2 == 0 {
      assert v == 2 * w;
    } else {
      assert v == 2 * w + 1;
      SquareOfNext(2 * w);
    }
  }

  lemma SquareOfDouble(w: nat)
    ensures (2 * w) * (2 * w) == 2 * (2 * (w * w))
  {
    Associates(2, w, 2 * w);
    Associates(w, 2, w);
    Associates(2, w, w);
  }

  lemma SquareOfNext(a: nat)
    ensures (a + 1) * (a + 1) == a * a + 2 * a + 1
  {
    Distributes(a + 1, a, 1);
    Distributes(a, a, 1);
  }

  lemma DoubleDivides(a: nat, d: nat)
    requires d > 0
    ensures (2 * a) % (2 * d) == 0 <==> a % d == 0
  {
    DivMod(a, d);
    Associates(2, a / d, d);
    Associates(a / d, 2, d);
    IsQuotient(2 * a, 2 * d, a / d, 2 * (a % d));
  }

  lemma OddDividesNot(a: nat, d: nat)
    requires d > 0
    ensures (2 * a + 1) % (2 * d) != 0
  {
    var q := (2 * a + 1) / (2 * d);
    DivMod(2 * a + 1, 2 * d);
    Associates(q, 2, d);
    Associates(2, q, d);
  }

  // What `x *= x` leaves, zero, is the product exactly for the multiples of 2^128 ...
  lemma SquareVanishesIff(v: nat)
    ensures 0 == (v * v) % Modulus() <==> v % Pow(2, 128) == 0
  {
    SquareDivides(v, 128);
  }

  // ... and so not for 1.
  lemma OneTimesItself()
    ensures (1 * 1) % Modulus() == 1 && 1 % Pow(2, 128) == 1
  {
    hide Pow;
    PowersOfTwo();
    PowGrows(2, 4, 256);
    PowGrows(2, 4, 128);
  }

  class BaseUint {
    const pn: array<UInt32>

    ghost predicate Valid() {
      pn.Length == WIDTH
    }

    ghost function Value(): (v: nat)
      requires Valid()
      reads pn
      ensures v < Modulus()
    {
      ValBound(pn[..]);
      Val(pn[..])
    }

    constructor ()
      ensures Valid() && fresh(pn)
      ensures Value() == 0
    {
      pn := new UInt32[WIDTH](_ => 0);
      new;
      ValZero(pn[..]);
    }

    constructor Copy(b: BaseUint)
      requires b.Valid()
      ensures Valid() && fresh(pn)
      ensures pn[..] == b.pn[..]
    {
      pn := new UInt32[WIDTH](i requires 0 <= i < WIDTH reads b.pn => b.pn[i]);
      new;
      assert pn[..] == b.pn[..];
    }

    // operator=(uint64_t)
    method Assign64(b: nat)
      requires Valid() && b < BASE * BASE
      modifies pn
      ensures Value() == b
    {
      DivBelow(b, BASE, BASE);
      pn[0] := b % BASE;
      pn[1] := b / BASE;
      var i := 2;
      while i < WIDTH
        invariant 2 <= i <= WIDTH
        invariant pn[0] == b % BASE && pn[1] == b / BASE
        invariant forall k | 2 <= k < i :: pn[k] == 0
      {
        pn[i] := 0;
        i := i + 1;
      }
      TwoLimbs(pn[..], b);
    }

    method AddAssign(b: BaseUint)
      requires Valid() && b.Valid()
      modifies pn
      ensures Value() == (old(Value()) + old(b.Value())) % Modulus()
    {
      hide Val, Unit, Pow, Prefix, Modulus;
      ghost var s, t := pn[..], b.pn[..];
      var carry: nat := 0;
      var i := 0;
      assert Prefix(pn[..], 0, 0) == Prefix(s, 0, 0) == Prefix(t, 0, 0) == 0 by { PrefixEmpty(s, 0); PrefixEmpty(t, 0); }
      while i < WIDTH
        invariant 0 <= i <= WIDTH && carry <= 1
        invariant Prefix(pn[..], i, carry) == Prefix(s, i, 0) + Prefix(t, i, 0)
        invariant pn[i..] == s[i..] && b.pn[i..] == t[i..]
      {
        assert pn[i] == s[i] && b.pn[i] == t[i];
        var n := carry + pn[i] + b.pn[i];
        ghost var before := pn[..];
        pn[i] := n % BASE;
        PrefixNext(before, pn[..], i, carry, n);
        PrefixNext(s, s, i, 0, s[i]);
        PrefixNext(t, t, i, 0, t[i]);
        Distributes(Unit(i), s[i], t[i]);
        carry := n / BASE;
        i := i + 1;
      }
      PrefixFull(s);
      PrefixFull(t);
      PrefixAll(pn[..], carry, Val(s) + Val(t));
    }

    // operator~ followed by ++, on a copy: two's complement.
    method Negate() returns (ret: BaseUint)
      requires Valid()
      ensures fresh(ret) && ret.Valid() && fresh(ret.pn)
      ensures ret.Value() == (Modulus() - Value()) % Modulus()
    {
      hide Val, Unit, Pow;
      ret := new BaseUint();
      var i := 0;
      while i < WIDTH
        invariant 0 <= i <= WIDTH
        invariant forall k | 0 <= k < i :: ret.pn[k] == BASE - 1 - pn[k]
      {
        ret.pn[i] := BASE - 1 - pn[i];
        i := i + 1;
      }
      Complement(pn[..], ret.pn[..]);
      ret.Increment();
    }

    method SubAssign(b: BaseUint)
      requires Valid() && b.Valid()
      modifies pn
      ensures Value() == (old(Value()) - old(b.Value())) % Modulus()
    {
      hide Val, Unit, Pow, Modulus;
      var minus := b.Negate();
      AddAssign(minus);
      ModMinus(old(Value()), old(b.Value()), Modulus());
    }

    // prefix operator++
    method Increment()
      requires Valid()
      modifies pn
      ensures Value() == (old(Value()) + 1) % Modulus()
    {
      hide Val, IsNext, Modulus;
      ghost var s := pn[..];
      var i := 0;
      pn[i] := (pn[i] + 1) % BASE;
      FirstUp(s, pn[..]);
      while pn[i] == 0 && i < WIDTH - 1
        invariant 0 <= i < WIDTH
        invariant forall k | i < k < WIDTH :: pn[k] == s[k]
        invariant IsNext(s, pn[..], i)
        decreases WIDTH - i
      {
        ghost var before := pn[..];
        i := i + 1;
        pn[i] := (pn[i] + 1) % BASE;
        NextUp(s, before, pn[..], i);
      }
      CarryEnds(s, pn[..], i);
    }

    // prefix operator--
    method Decrement()
      requires Valid()
      modifies pn
      ensures Value() == (old(Value()) - 1) % Modulus()
    {
      hide Val, IsNext, Modulus;
      ghost var s := pn[..];
      var i := 0;
      pn[i] := (pn[i] - 1) % BASE;
      FirstDown(s, pn[..]);
      while pn[i] == BASE - 1 && i < WIDTH - 1
        invariant 0 <= i < WIDTH
        invariant forall k | i < k < WIDTH :: pn[k] == s[k]
        invariant IsNext(pn[..], s, i)
        decreases WIDTH - i
      {
        ghost var before := pn[..];
        i := i + 1;
        pn[i] := (pn[i] - 1) % BASE;
        NextDown(s, before, pn[..], i);
      }
      BorrowEnds(s, pn[..], i);
    }

    // operator*=(uint32_t)
    method MulAssign32(b32: UInt32)
      requires Valid()
      modifies pn
      ensures Value() == (old(Value()) * b32) % Modulus()
    {
      hide Val, Unit, Pow, Prefix, Modulus;
      ghost var s := pn[..];
      var carry: nat := 0;
      var i := 0;
      PrefixEmpty(s, 0);
      while i < WIDTH
        invariant 0 <= i <= WIDTH && carry < BASE
        invariant Prefix(pn[..], i, carry) == Prefix(s, i, 0) * b32
        invariant pn[i..] == s[i..]
      {
        assert pn[i] == s[i];
        MulFits(carry, 0, b32, pn[i]);
        var n := carry + b32 * pn[i];
        ghost var before := pn[..];
        pn[i] := n % BASE;
        PrefixNext(before, pn[..], i, carry, n);
        PrefixNext(s, s, i, 0, s[i]);
        MulRow(s[i], b32, Unit(i), Prefix(s, i, 0));
        carry := n / BASE;
        i := i + 1;
      }
      PrefixFull(s);
      PrefixAll(pn[..], carry, Val(s) * b32);
    }

    // operator*=(const base_uint&).  The product is built on top of *this = 0, which is b too
    // if b is the number itself: that product is zero, whatever the number was.
    method MulAssign(b: BaseUint)
      requires Valid() && b.Valid()
      modifies pn
      ensures b.pn != pn ==> Value() == (old(Value()) * b.Value()) % Modulus()
      ensures b.pn == pn ==> Value() == 0
      ensures Value() == (old(Value()) * old(b.Value())) % Modulus()
        <==> b.pn != pn || old(Value()) % Pow(2, 128) == 0
    {
      hide Val, Unit, Pow, Prefix, Modulus;
      var a := new BaseUint.Copy(this);
      Assign64(0);
      ghost var dropped := 0;
      var j := 0;
      PrefixEmpty(a.pn[..], 0);
      while j < WIDTH
        invariant 0 <= j <= WIDTH
        invariant a.pn[..] == old(pn[..])
        invariant b.pn != pn ==> Val(pn[..]) + dropped * Modulus() == Prefix(a.pn[..], j, 0) * Val(b.pn[..])
        invariant b.pn == pn ==> Val(pn[..]) == 0
      {
        ghost var before := Val(pn[..]);
        ghost var overflow := AddRow(a.pn[j], b, j);
        if b.pn != pn {
          NextRow(a.pn[..], j, Val(b.pn[..]), before, Val(pn[..]), dropped, overflow, Modulus());
        }
        dropped := dropped + overflow;
        j := j + 1;
      }
      PrefixFull(a.pn[..]);
      BelowModulus(pn[..]);
      if b.pn != pn {
        IsQuotient(old(Value()) * b.Value(), Modulus(), dropped, Val(pn[..]));
      } else {
        SquareVanishesIff(old(Value()));
      }
    }

    // The inner loop of operator*=: one limb times b, added from limb j on.  What the top
    // limb cannot hold is dropped.
    method AddRow(x: UInt32, b: BaseUint, j: nat) returns (ghost overflow: int)
      requires Valid() && b.Valid() && j < WIDTH
      modifies pn
      ensures b.pn != pn ==> Val(pn[..]) + overflow * Modulus() == old(Val(pn[..])) + (x * Unit(j)) * Val(b.pn[..])
      ensures b.pn == pn && old(Val(pn[..])) == 0 ==> Val(pn[..]) == 0
    {
      hide Val, Unit, Pow, Prefix, Modulus;
      ghost var s, t := pn[..], b.pn[..];
      var carry: nat := 0;
      var i := 0;
      PrefixCarry(s, j, 0);
      PrefixEmpty(t, 0);
      while i + j < WIDTH
        invariant 0 <= i <= WIDTH - j && carry < BASE
        invariant b.pn != pn ==>
          Prefix(pn[..], i + j, carry) == Prefix(s, i + j, 0) + (x * Unit(j)) * Prefix(t, i, 0)
        invariant b.pn == pn && Val(s) == 0 ==> carry == 0 && pn[..] == s
        invariant pn[i + j..] == s[i + j..]
      {
        assert pn[i + j] == s[i + j];
        MulFits(carry, pn[i + j], x, b.pn[i]);
        var n := carry + pn[i + j] + x * b.pn[i];
        ghost var before := pn[..];
        pn[i + j] := n % BASE;
        if b.pn != pn {
          RowNext(s, before, pn[..], t, i, j, x, carry);
        } else if Val(s) == 0 {
          ValZero(s);
          assert n == 0 && pn[..] == s;
        }
        carry := n / BASE;
        i := i + 1;
      }
      overflow := carry + x * Val(t[i..]);
      if b.pn != pn {
        RowDrops(s, pn[..], t, i, j, x, carry);
      }
    }

    method CompareTo(b: BaseUint) returns (r: int)
      requires Valid() && b.Valid()
      ensures r < 0 <==> Value() < b.Value()
      ensures r > 0 <==> Value() > b.Value()
    {
      hide Val, Unit, Pow;
      var i := WIDTH - 1;
      while i >= 0
        invariant -1 <= i < WIDTH
        invariant pn[i + 1..] == b.pn[i + 1..]
      {
        if pn[i] < b.pn[i] {
          ValLess(pn[..], b.pn[..], i);
          return -1;
        }
        if pn[i] > b.pn[i] {
          ValLess(b.pn[..], pn[..], i);
          return 1;
        }
        i := i - 1;
      }
      assert pn[..] == pn[0..] == b.pn[0..] == b.pn[..];
      return 0;
    }

    method EqualTo(b: nat) returns (r: bool)
      requires Valid() && b < BASE * BASE
      ensures r <==> Value() == b
    {
      hide Val, Unit, Pow;
      var i := WIDTH - 1;
      while i >= 2
        invariant 1 <= i < WIDTH
        invariant forall k | i < k < WIDTH :: pn[k] == 0
      {
        if pn[i] != 0 {
          LimbBelow(pn[..], i);
          UnitGrowsFrom2(i);
          return false;
        }
        i := i - 1;
      }
      var v: nat := pn[1] * BASE + pn[0];
      IsQuotient(v, BASE, pn[1], pn[0]);
      TwoLimbs(pn[..], v);
      DivMod(b, BASE);
      r := pn[1] == b / BASE && pn[0] == b % BASE;
    }

    // The position of the highest set bit plus one, or zero.
    method Bits() returns (n: nat)
      requires Valid()
      ensures n == 0 <==> Value() == 0
      ensures n > 0 ==> Pow(2, n - 1) <= Value() < Pow(2, n)
      ensures n <= 32 * WIDTH
    {
      hide Val, Unit, Pow;
      var pos := WIDTH - 1;
      while pos >= 0
        invariant -1 <= pos < WIDTH
        invariant forall k | pos < k < WIDTH :: pn[k] == 0
      {
        if pn[pos] != 0 {
          var bits := 31;
          PowersOfTwo();
          while bits > 0
            invariant 0 <= bits <= 31
            invariant pn[pos] < Pow(2, bits + 1)
          {
            if BitSet(pn[pos], bits) {
              HighBit(pn[..], pos, bits);
              return 32 * pos + bits + 1;
            }
            NoBit(pn[pos], bits);
            bits := bits - 1;
          }
          HasLowBit(pn[pos]);
          HighBit(pn[..], pos, 0);
          return 32 * pos + 1;
        }
        pos := pos - 1;
      }
      ValZero(pn[..]);
      return 0;
    }

    // The body of operator<<='s loop: the two halves of a limb are or-ed in at place m.
    method OrLeft(x: UInt32, s: nat, m: nat) returns (ghost over: int)
      requires Valid() && s < 32
      requires forall q | m < q < WIDTH :: pn[q] == 0
      requires m < WIDTH ==> pn[m] < Pow(2, s)
      modifies pn
      ensures Val(pn[..]) + over * Modulus() == old(Val(pn[..])) + (x * Pow(2, s)) * Unit(m)
      ensures forall q | m + 1 < q < WIDTH :: pn[q] == 0
      ensures m + 1 < WIDTH ==> pn[m + 1] < Pow(2, s)
    {
      hide Val, Unit, Pow, Modulus, Or;
      ghost var before := pn[..];
      ShiftedLimb(x, s);
      if m + 1 < WIDTH && s != 0 {
        OrZero(x / Pow(2, 32 - s));
        pn[m + 1] := Or(pn[m + 1], x / Pow(2, 32 - s));
      }
      if m < WIDTH {
        OrDisjoint(pn[m], x % Pow(2, 32 - s), s);
        pn[m] := Or(pn[m], (x * Pow(2, s)) % BASE);
      }
      over := ShiftLeftStep(before, pn[..], x, s, m);
    }

    method ShiftLeftAssign(shift: nat)
      requires Valid()
      modifies pn
      ensures Value() == (old(Value()) * Pow(2, shift)) % Modulus()
    {
      hide Val, Unit, Pow, Modulus;
      var a := new BaseUint.Copy(this);
      Assign64(0);
      ValZero(pn[..]);
      PrefixEmpty(a.pn[..], 0);
      var k := shift / 32;
      var s := shift % 32;
      ghost var dropped: int := 0;
      var i := 0;
      while i < WIDTH
        invariant 0 <= i <= WIDTH
        invariant a.pn[..] == old(pn[..])
        invariant forall m | i + k < m < WIDTH :: pn[m] == 0
        invariant i + k < WIDTH ==> pn[i + k] < Pow(2, s)
        invariant Val(pn[..]) + dropped * Modulus() == Prefix(a.pn[..], i, 0) * Pow(2, shift)
      {
        ghost var over := OrLeft(a.pn[i], s, i + k);
        ShiftLeftNext(a.pn[..], i, k, s);
        Distributes(Modulus(), dropped, over);
        dropped := dropped + over;
        i := i + 1;
      }
      PrefixFull(a.pn[..]);
      ValBound(pn[..]);
      IsQuotient(old(Value()) * Pow(2, shift), Modulus(), dropped, Value());
    }

    // The body of operator>>='s loop, for limb k + m.
    method OrRight(x: UInt32, s: nat, m: nat)
      requires Valid() && s < 32 && m < WIDTH
      requires forall q | m <= q < WIDTH :: pn[q] == 0
      requires m > 0 ==> pn[m - 1] < Pow(2, 32 - s)
      modifies pn
      ensures m > 0 ==> Val(pn[..]) * Pow(2, s) == old(Val(pn[..])) * Pow(2, s) + x * Unit(m)
      ensures m == 0 ==> Val(pn[..]) * Pow(2, s) + x % Pow(2, s) == x
      ensures forall q | m + 1 <= q < WIDTH :: pn[q] == 0
      ensures pn[m] < Pow(2, 32 - s)
    {
      hide Val, Unit, Pow, Modulus, Or;
      ghost var before := pn[..];
      RightLimb(x, s);
      if m > 0 && s != 0 {
        OrDisjoint(pn[m - 1], x % Pow(2, s), 32 - s);
        pn[m - 1] := Or(pn[m - 1], (x * Pow(2, 32 - s)) % BASE);
      }
      OrZero(x / Pow(2, s));
      pn[m] := Or(pn[m], x / Pow(2, s));
      if m == 0 {
        ShiftRightFirst(before, pn[..], x, s);
      } else if s == 0 {
        PowZero();
        ShiftRightWhole(before, pn[..], x, m);
      } else {
        ShiftRightStep(before, pn[..], x, s, m);
      }
    }

    method ShiftRightAssign(shift: nat)
      requires Valid()
      modifies pn
      ensures Value() == old(Value()) / Pow(2, shift)
    {
      hide Val, Unit, Pow, Modulus;
      var a := new BaseUint.Copy(this);
      Assign64(0);
      ValZero(pn[..]);
      var k := shift / 32;
      var s := shift % 32;
      var i := 0;
      while i < WIDTH
        invariant 0 <= i <= WIDTH
        invariant a.pn[..] == old(pn[..])
        invariant forall q | 0 <= q < WIDTH && q >= i - k :: pn[q] == 0
        invariant i <= k ==> Val(pn[..]) == 0
        invariant i > k ==> pn[i - k - 1] < Pow(2, 32 - s)
        invariant i > k ==> Val(pn[..]) * Pow(2, s) + a.pn[k] % Pow(2, s) == Val(a.pn[k..i])
      {
        if i >= k {
          OrRight(a.pn[i], s, i - k);
          assert a.pn[k..] == a.pn[..][k..] && a.pn[k..][..i - k] == a.pn[k..i] && a.pn[k..][..i - k + 1] == a.pn[k..i + 1];
          ValNext(a.pn[k..], i - k);
          if i == k { ValOfOne(a.pn[k..k + 1]); }
        }
        i := i + 1;
      }
      ShiftRightDone(a.pn[..], pn[..], k, s);
    }

    // operator/=.  *this is already zero when the divisor turns out to be.
    method DivAssign(b: BaseUint) returns (ok: bool)
      requires Valid() && b.Valid()
      modifies pn
      ensures ok <==> old(b.Value()) != 0
      ensures !ok ==> Value() == 0
      ensures ok ==> Value() == old(Value()) / old(b.Value())
    {
      hide Val, Unit, Pow, Modulus, LowClear;
      ghost var n, d := Value(), b.Value();
      var div := new BaseUint.Copy(b);
      var num := new BaseUint.Copy(this);
      Assign64(0);
      var numBits := num.Bits();
      var divBits := div.Bits();
      if divBits == 0 {
        return false;
      }
      if divBits > numBits {
        ShorterQuotient(n, d, numBits, divBits);
        return true;
      }
      Aligned(n, d, numBits, divBits);
      div.ShiftLeftAssign(numBits - divBits);
      ZeroIsClear(pn[..], numBits - divBits + 1, d);
      DivLoop(num, div, numBits - divBits, d);
      IsQuotient(n, d, Value(), num.Value());
      return true;
    }

    // The division loop: from an aligned divisor down to the divisor itself.
    method DivLoop(num: BaseUint, div: BaseUint, start: nat, ghost d: nat)
      requires Valid() && num.Valid() && div.Valid() && num.pn != pn && div.pn != pn && num.pn != div.pn
      requires start < 32 * WIDTH && LowClear(pn[..], start + 1)
      requires div.Value() == d * Pow(2, start) && num.Value() < d * Pow(2, start + 1)
      modifies pn, num.pn, div.pn
      ensures Value() * d + num.Value() == old(Value() * d + num.Value())
      ensures num.Value() < d
    {
      hide Val, Unit, Pow, Modulus, LowClear;
      var shift: int := start;
      while shift >= 0
        invariant -1 <= shift <= start
        invariant Value() * d + num.Value() == old(Value() * d + num.Value())
        invariant num.Value() < d * Pow(2, shift + 1)
        invariant shift >= 0 ==> div.Value() == d * Pow(2, shift)
        invariant LowClear(pn[..], shift + 1)
      {
        HalfStep(d, shift);
        DivBit(num, div, shift, d);
        div.ShiftRightAssign(1);
        shift := shift - 1;
      }
      PowZero();
    }

    // The body of the division loop: take the shifted divisor off if it fits.
    method DivBit(num: BaseUint, div: BaseUint, shift: nat, ghost d: nat)
      requires Valid() && num.Valid() && div.Valid() && num.pn != pn && div.pn != pn && num.pn != div.pn
      requires shift < 32 * WIDTH && LowClear(pn[..], shift + 1)
      requires div.Value() == d * Pow(2, shift) && num.Value() < div.Value() + div.Value()
      modifies pn, num.pn
      ensures Value() * d + num.Value() == old(Value() * d + num.Value())
      ensures num.Value() < div.Value()
      ensures LowClear(pn[..], shift)
    {
      hide Val, Unit, Pow, Modulus, LowClear;
      var c := num.CompareTo(div);
      if c >= 0 {
        ghost var r := num.Value();
        num.SubAssign(div);
        IsQuotient(r - div.Value(), Modulus(), 0, r - div.Value());
        SetBit(shift, d);
      } else {
        LowClearLess(pn[..], shift);
      }
    }

    // pn[shift / 32] |= (1 << (shift & 31)), on a quotient whose bits up to there are clear
    method SetBit(shift: nat, ghost d: nat)
      requires Valid() && shift < 32 * WIDTH && LowClear(pn[..], shift + 1)
      modifies pn
      ensures Value() * d == old(Value()) * d + d * Pow(2, shift)
      ensures LowClear(pn[..], shift)
    {
      hide Val, Unit, Pow, Modulus, Or;
      ghost var before := pn[..];
      BitIsClear(pn[..], shift);
      pn[shift / 32] := Or(pn[shift / 32], Pow(2, shift % 32));
      UnitTimes(shift / 32, shift % 32);
      ValUpdate(before, shift / 32, pn[shift / 32]);
      assert pn[..] == before[shift / 32 := pn[shift / 32]];
      Distributes(d, Val(before), Pow(2, shift));
    }

    method GetLow64() returns (r: nat)
      requires Valid()
      ensures r == Value() % (BASE * BASE)
    {
      hide Val, Unit, Pow, Or;
      PowersOfTwo();
      OrDisjoint(pn[0], pn[1], 32);
      r := Or(pn[0], pn[1] * BASE);
      LowTwo(pn[..]);
    }

    // Sets the number a compact target stands for, cut to 256 bits.
    method SetCompact(nCompact: UInt32) returns (fNegative: bool, fOverflow: bool)
      requires Valid()
      modifies pn
      ensures Value() == Decoded(nCompact) % Modulus()
      ensures fNegative <==> Decoded(nCompact) != 0 && nCompact % 0x100_0000 >= 0x80_0000
      ensures fOverflow <==> Decoded(nCompact) >= Modulus()
    {
      hide Val, Unit, Pow, Modulus;
      var nSize := nCompact / 0x100_0000;
      var nWord: nat := nCompact % 0x80_0000;
      ModulusInBytes();
      TopBitIsSign(nCompact);
      if nSize <= 3 {
        BytesInBits(3 - nSize);
        ShortFits(nSize, nWord);
        DivMod(nWord, Pow(2, 8 * (3 - nSize)));
        WordFits(nWord, 3 - nSize);
        nWord := nWord / Pow(2, 8 * (3 - nSize));
        Assign64(nWord);
        IsQuotient(nWord, Modulus(), 0, nWord);
      } else {
        BytesInBits(nSize - 3);
        OverflowIsExact(nSize, nWord);
        UpZero(nWord, nSize - 3);
        Assign64(nWord);
        ShiftLeftAssign(8 * (nSize - 3));
      }
      fNegative := nWord != 0 && (nCompact / 0x80_0000) % 2 != 0;
      fOverflow := nWord != 0 && (nSize > 34 || (nWord > 0xff && nSize > 33) || (nWord > 0xffff && nSize > 32));
    }

    // The encoding of the value, with the sign bit if asked for and the mantissa is not zero.
    method GetCompact(fNegative: bool) returns (nCompact: UInt32)
      requires Valid()
      ensures Value() < Pow(256, 32)
      ensures nCompact == Compacted(Value()) + (if fNegative && EncodedMantissa(Value()) != 0 then 0x80_0000 else 0)
    {
      hide Val, Unit, Pow, Modulus, Size, TopThree, BitSet;
      ModulusInBytes();
      PackedFits(Value());
      TopThreeBounds(Value());
      var bits := Bits();
      var nSize := (bits + 7) / 8;
      SizeFromBits(Value(), bits);
      var nWord := TopBytes(nSize);
      TallBit(nWord);
      if BitSet(nWord, 23) {
        nWord := nWord / 256;
        nSize := nSize + 1;
      }
      assert nWord / 0x80_0000 == 0;
      assert nSize < 256;
      nCompact := Pack(nWord, nSize, fNegative);
    }

    // The first half of GetCompact: the top three bytes as a 32-bit number.
    method TopBytes(nSize: nat) returns (nWord: nat)
      requires Valid() && nSize == Size(Value())
      ensures nWord == TopThree(Value())
    {
      hide Val, Unit, Pow, Modulus, Size, TopThree;
      if nSize <= 3 {
        var low := GetLow64();
        ShortTop(Value(), low);
        nWord := (low * Pow(2, 8 * (3 - nSize))) % BASE;
      } else {
        var bn := new BaseUint.Copy(this);
        bn.ShiftRightAssign(8 * (nSize - 3));
        var low := bn.GetLow64();
        LongTop(Value(), bn.Value());
        nWord := low % BASE;
      }
    }
  }

  lemma TopBitIsSign(c: UInt32)
    ensures (c / 0x80_0000) % 2 != 0 <==> c % 0x100_0000 >= 0x80_0000
  {
  }

  lemma ShortTop(v: nat, low: nat)
    requires Size(v) <= 3 && low == v % (BASE * BASE)
    ensures (low * Pow(2, 8 * (3 - Size(v)))) % BASE == TopThree(v)
  {
    hide Size, Pow;
    SmallIsLow(v, low);
    BytesInBits(3 - Size(v));
    TopThreeBounds(v);
  }

  lemma LongTop(v: nat, w: nat)
    requires Size(v) > 3 && w == v / Pow(2, 8 * (Size(v) - 3))
    ensures (w % (BASE * BASE)) % BASE == TopThree(v)
  {
    hide Size, Pow;
    BytesInBits(Size(v) - 3);
    TopThreeBounds(v);
  }

  // The last half of GetCompact: size, sign and mantissa or-ed together.
  method Pack(nWord: nat, nSize: nat, fNegative: bool) returns (nCompact: UInt32)
    requires nWord < 0x80_0000 && nSize < 0x100
    ensures nCompact == nSize * 0x100_0000 + nWord + (if fNegative && nWord != 0 then 0x80_0000 else 0)
  {
    hide Or;
    OrSize(nWord, nSize);
    nCompact := Or(nWord, nSize * 0x100_0000);
    if fNegative && nCompact % 0x80_0000 != 0 {
      OrSign(nWord, nSize);
      nCompact := Or(nCompact, 0x80_0000);
    }
  }

  // ---------------------------------------------------------------- the compact form

  lemma {:induction false} BytesInBits(k: nat)
    ensures Pow(256, k) == Pow(2, 8 * k)
  {
    if k > 0 {
      BytesInBits(k - 1);
      PowAdd(2, 8, 8 * (k - 1));
      PowersOfTwo();
    }
  }

  lemma ModulusInBytes()
    ensures Modulus() == Pow(256, 32)
  {
    BytesInBits(32);
  }

  lemma WordFits(w: nat, k: nat)
    requires w < 0x80_0000
    ensures 0 <= w / Pow(2, 8 * k) <= w
  {
    hide Pow;
    DivMod(w, Pow(2, 8 * k));
    TimesGrows(w / Pow(2, 8 * k), 1, Pow(2, 8 * k));
  }

  lemma UpZero(w: nat, k: nat)
    ensures Up(w, k) == 0 <==> w == 0
  {
    DownUp(w, k);
  }

  // The size in bytes from the length in bits.
  lemma SizeFromBits(v: nat, bits: nat)
    requires bits == 0 <==> v == 0
    requires bits > 0 ==> Pow(2, bits - 1) <= v < Pow(2, bits)
    ensures Size(v) == (bits + 7) / 8
  {
    hide Pow;
    var n := (bits + 7) / 8;
    if bits > 0 {
      BytesInBits(n);
      BytesInBits(n - 1);
      PowGrows(2, bits, 8 * n);
      PowGrows(2, 8 * (n - 1), bits - 1);
    }
    SizeIs(v, n);
  }

  lemma SmallIsLow(v: nat, low: nat)
    requires Size(v) <= 3 && low == v % (BASE * BASE)
    ensures low == v
  {
    SizeBounds(v);
    BytePowers();
    hide Pow, Size;
    PowGrows(256, Size(v), 3);
  }

  lemma TallBit(w: nat)
    requires w < 0x100_0000
    ensures BitSet(w, 23) <==> w >= 0x80_0000
  {
    PowersOfTwo();
    PowAdd(2, 4, 4);
    PowAdd(2, 16, 7);
    assert Pow(2, 7) == 128;
  }

  lemma OrSize(w: nat, n: nat)
    requires w < 0x80_0000
    ensures Or(w, n * 0x100_0000) == w + n * 0x100_0000
  {
    PowersOfTwo();
    PowAdd(2, 16, 8);
    hide Pow, Or;
    OrDisjoint(w, n, 24);
  }

  lemma OrSign(w: nat, n: nat)
    requires w < 0x80_0000
    ensures Or(w + n * 0x100_0000, 0x80_0000) == w + n * 0x100_0000 + 0x80_0000
  {
    PowersOfTwo();
    PowAdd(2, 16, 7);
    assert Pow(2, 7) == 128;
    hide Pow, Or;
    IsQuotient(w + n * 0x100_0000, 0x80_0000, 2 * n, w);
    OrBit(w + n * 0x100_0000, 23);
  }

  lemma PowZero()
    ensures Pow(2, 0) == 1
  {
  }

  lemma ValOfOne(s: seq<UInt32>)
    requires |s| == 1
    ensures Val(s) == s[0]
  {
    assert Unit(0) == 1;
    assert Val(s[..0]) == 0;
  }

  lemma LowTwo(s: seq<UInt32>)
    requires |s| == WIDTH
    ensures Val(s) % (BASE * BASE) == s[0] + s[1] * BASE
  {
    ValSplit(s, 2);
    ValNext(s, 1);
    ValNext(s, 0);
    assert Unit(0) == 1 && Val(s[..0]) == 0;
    UnitStep(0);
    UnitStep(1);
    hide Val, Unit;
    IsQuotient(Val(s), BASE * BASE, Val(s[2..]), s[0] + s[1] * BASE);
  }

  // A limb shifted right: the part that stays and the part that moves into the limb below.
  lemma RightLimb(x: UInt32, s: nat)
    requires s < 32
    ensures 0 <= x / Pow(2, s) < Pow(2, 32 - s) <= BASE
    ensures s > 0 ==> (x * Pow(2, 32 - s)) % BASE == (x % Pow(2, s)) * Pow(2, 32 - s)
    ensures s > 0 ==> (x * Pow(2, 32 - s)) % BASE + Pow(2, 32 - s) <= BASE
    ensures x % Pow(2, s) >= 0
  {
    if s > 0 {
      ShiftedLimb(x, 32 - s);
    } else {
      PowersOfTwo();
      PowZero();
    }
  }

  lemma ShiftRightFirst(p: seq<UInt32>, q: seq<UInt32>, x: UInt32, s: nat)
    requires |p| == |q| == WIDTH && 0 <= x / Pow(2, s) < BASE
    requires q == p[0 := x / Pow(2, s)] && forall k | 0 <= k < WIDTH :: p[k] == 0
    ensures Val(q) * Pow(2, s) + x % Pow(2, s) == x
  {
    hide Val, Unit, Pow;
    DivMod(x, Pow(2, s));
    ValZero(p);
    ValUpdate(p, 0, x / Pow(2, s));
    UnitZero();
  }

  lemma ShiftRightStep(p: seq<UInt32>, q: seq<UInt32>, x: UInt32, s: nat, m: nat)
    requires |p| == |q| == WIDTH && 0 < s < 32 && 0 < m < WIDTH && p[m] == 0 && 0 <= x / Pow(2, s) < BASE
    requires p[m - 1] + (x * Pow(2, 32 - s)) % BASE < BASE
    requires q == p[m - 1 := p[m - 1] + (x * Pow(2, 32 - s)) % BASE][m := x / Pow(2, s)]
    ensures Val(q) * Pow(2, s) == Val(p) * Pow(2, s) + x * Unit(m)
  {
    hide Val, Unit, Pow;
    var hi, lo := x / Pow(2, s), (x * Pow(2, 32 - s)) % BASE;
    var t := p[m - 1 := p[m - 1] + lo];
    ValUpdate(p, m - 1, p[m - 1] + lo);
    ValUpdate(t, m, hi);
    RightWeights(x, s, m);
    Distributes(Pow(2, s), Val(p), lo * Unit(m - 1));
    Distributes(Pow(2, s), Val(t), hi * Unit(m));
  }

  lemma ShiftRightWhole(p: seq<UInt32>, q: seq<UInt32>, x: UInt32, m: nat)
    requires |p| == |q| == WIDTH && m < WIDTH && p[m] == 0 && x / Pow(2, 0) == x
    requires q == p[m := x / Pow(2, 0)]
    ensures Val(q) * Pow(2, 0) == Val(p) * Pow(2, 0) + x * Unit(m)
  {
    PowZero();
    hide Val, Unit, Pow;
    ValUpdate(p, m, x);
  }

  lemma UnitZero()
    ensures Unit(0) == 1
  {
  }

  lemma RightWeights(x: UInt32, s: nat, m: nat)
    requires 0 < s < 32 && m > 0
    ensures (((x * Pow(2, 32 - s)) % BASE) * Unit(m - 1)) * Pow(2, s) + ((x / Pow(2, s)) * Unit(m)) * Pow(2, s) == x * Unit(m)
  {
    RightLimb(x, s);
    PowAdd(2, 32 - s, s);
    PowersOfTwo();
    UnitStep(m - 1);
    hide Unit, Pow;
    var p, q, u, r := Pow(2, s), Pow(2, 32 - s), Unit(m - 1), x % Pow(2, s);
    DivMod(x, p);
    Commutes4(r, q, u, p);
    assert ((r * q) * u) * p == r * ((q * p) * u) by {
      Associates(r * q, u, p);
      Associates(r, q, u * p);
      Associates(q, p, u);
    }
    Associates(x / p, Unit(m), p);
    Associates(x / p, p, Unit(m));
    Distributes(Unit(m), r, (x / p) * p);
  }

  lemma ShiftRightDone(a: seq<UInt32>, p: seq<UInt32>, k: nat, s: nat)
    requires |a| == |p| == WIDTH && s < 32
    requires k >= WIDTH ==> Val(p) == 0
    requires k < WIDTH ==> Val(p) * Pow(2, s) + a[k] % Pow(2, s) == Val(a[k..WIDTH])
    ensures Val(p) == Val(a) / Pow(2, 32 * k + s)
  {
    UnitTimes(k, s);
    hide Val, Unit, Pow;
    if k >= WIDTH {
      ValBound(a);
      PowGrows(2, 32 * WIDTH, 32 * k + s);
      UnitTimes(WIDTH, 0);
      PowZero();
      IsQuotient(Val(a), Pow(2, 32 * k + s), 0, Val(a));
    } else {
      assert a[k..WIDTH] == a[k..];
      ValSplit(a, k);
      ValBound(a[..k]);
      IsQuotient(Val(a), Unit(k), Val(a[k..]), Val(a[..k]));
      DivMod(a[k], Pow(2, s));
      IsQuotient(Val(a[k..]), Pow(2, s), Val(p), a[k] % Pow(2, s));
      DivDiv(Val(a), Unit(k), Pow(2, s));
    }
  }

  // ---------------------------------------------------------------- division

  // The low n bits are zero.
  predicate LowClear(s: seq<UInt32>, n: nat) {
    && (forall m | 0 <= m < |s| && m < n / 32 :: s[m] == 0)
    && (n / 32 < |s| ==> s[n / 32] % Pow(2, n % 32) == 0)
  }

  lemma BitIsClear(s: seq<UInt32>, n: nat)
    requires n < 32 * |s| && LowClear(s, n + 1)
    ensures Or(s[n / 32], Pow(2, n % 32)) == s[n / 32] + Pow(2, n % 32) < BASE
    ensures (s[n / 32] + Pow(2, n % 32)) % Pow(2, n % 32) == 0
    ensures s[n / 32] % Pow(2, n % 32) == 0
  {
    var b := n % 32;
    if b == 31 {
      assert (n + 1) / 32 == n / 32 + 1;
      PowersOfTwo();
    } else {
      assert (n + 1) / 32 == n / 32 && (n + 1) % 32 == b + 1;
    }
    hide Pow, Or, LowClear;
    ClearLimb(s[n / 32], b);
  }

  lemma ClearLimb(x: UInt32, b: nat)
    requires b < 32 && x % Pow(2, b + 1) == 0
    ensures Or(x, Pow(2, b)) == x + Pow(2, b) < BASE
    ensures (x + Pow(2, b)) % Pow(2, b) == 0 && x % Pow(2, b) == 0
  {
    var p, q := Pow(2, b), Pow(2, 31 - b);
    assert Pow(2, b + 1) == 2 * p;
    PowersOfTwo();
    PowAdd(2, 31 - b, b + 1);
    hide Pow, Or;
    ClearMultiple(x, p, q);
    OrBit(x, b);
  }

  // A multiple of 2p below q * 2p leaves room for p and is an even multiple of it.
  lemma ClearMultiple(x: nat, p: nat, q: nat)
    requires p > 0 && x < q * (2 * p) && x % (2 * p) == 0
    ensures x + p < q * (2 * p) && (x / p) % 2 == 0
    ensures (x + p) % p == 0 && x % p == 0
  {
    DivMod(x, 2 * p);
    var y := x / (2 * p);
    DivBelow(x, 2 * p, q);
    TimesGrows(2 * p, y, q - 1);
    Distributes(2 * p, q, 1);
    Associates(y, 2, p);
    Distributes(p, y * 2, 1);
    IsQuotient(x, p, y * 2, 0);
    IsQuotient(x + p, p, y * 2 + 1, 0);
  }

  lemma ZeroIsClear(s: seq<UInt32>, n: nat, d: nat)
    requires Val(s) == 0
    ensures LowClear(s, n) && Val(s) * d == 0
  {
    hide Pow, Val;
    ValZero(s);
    IsQuotient(0, Pow(2, n % 32), 0, 0);
    ZeroTimes(Val(s), d);
  }

  lemma ZeroTimes(v: nat, d: nat)
    requires v == 0
    ensures v * d == 0
  {
  }

  lemma LowClearLess(s: seq<UInt32>, n: nat)
    requires n < 32 * |s| && LowClear(s, n + 1)
    ensures LowClear(s, n)
  {
    BitIsClear(s, n);
  }

  lemma ShorterQuotient(n: nat, d: nat, numBits: nat, divBits: nat)
    requires numBits < divBits && (numBits == 0 <==> n == 0) && (numBits > 0 ==> n < Pow(2, numBits))
    requires Pow(2, divBits - 1) <= d
    ensures d > 0 && n / d == 0
  {
    hide Pow;
    PowGrows(2, numBits, divBits - 1);
    IsQuotient(n, d, 0, n);
  }

  // Shifted by the difference in length the divisor still fits, and twice it exceeds the numerator.
  lemma Aligned(n: nat, d: nat, numBits: nat, divBits: nat)
    requires 0 < divBits <= numBits <= 32 * WIDTH && n < Pow(2, numBits)
    requires Pow(2, divBits - 1) <= d < Pow(2, divBits)
    ensures (d * Pow(2, numBits - divBits)) % Modulus() == d * Pow(2, numBits - divBits)
    ensures n < d * Pow(2, numBits - divBits + 1)
    ensures d > 0
  {
    var s := numBits - divBits;
    UnitTimes(WIDTH, 0);
    PowZero();
    hide Pow, Unit;
    PowAdd(2, divBits, s);
    PowAdd(2, divBits - 1, s + 1);
    PowGrows(2, numBits, 32 * WIDTH);
    TimesGrows(Pow(2, s), d + 1, Pow(2, divBits));
    Distributes(Pow(2, s), d, 1);
    TimesGrows(Pow(2, s + 1), Pow(2, divBits - 1), d);
    Positive(d, Pow(2, s));
    IsQuotient(d * Pow(2, s), Modulus(), 0, d * Pow(2, s));
  }

  // One step of the long division halves what the remainder is compared with.
  lemma HalfStep(d: nat, shift: nat)
    ensures d * Pow(2, shift + 1) == d * Pow(2, shift) + d * Pow(2, shift)
    ensures shift > 0 ==> (d * Pow(2, shift)) / Pow(2, 1) == d * Pow(2, shift - 1)
  {
    assert Pow(2, 1) == 2 && Pow(2, shift + 1) == 2 * Pow(2, shift);
    var p := Pow(2, shift);
    Distributes(d, p, p);
    if shift > 0 {
      var q := Pow(2, shift - 1);
      assert p == 2 * q;
      Distributes(d, q, q);
    }
  }

  lemma NoBit(x: nat, b: nat)
    requires x < Pow(2, b + 1) && !BitSet(x, b)
    ensures x < Pow(2, b)
  {
    var p := Pow(2, b);
    DivBelow(x, p, 2);
    DivBelow(x, p, 1);
  }

  lemma HasLowBit(x: nat)
    requires x != 0 && x < Pow(2, 1)
    ensures BitSet(x, 0)
  {
  }

  lemma BitMeans(x: nat, b: nat)
    requires BitSet(x, b)
    ensures Pow(2, b) <= x
  {
    hide Pow;
    DivBelow(x, Pow(2, b), 1);
  }

  lemma UnitTimes(k: nat, b: nat)
    ensures Pow(2, 32 * k + b) == Unit(k) * Pow(2, b)
  {
    PowAdd(2, 32 * k, b);
  }

  // With zero above, the highest set bit of limb pos is the highest set bit of all.
  lemma HighBit(s: seq<UInt32>, pos: nat, b: nat)
    requires pos < |s| && (forall k | pos < k < |s| :: s[k] == 0)
    requires s[pos] < Pow(2, b + 1) && BitSet(s[pos], b)
    ensures Pow(2, 32 * pos + b) <= Val(s) < Pow(2, 32 * pos + b + 1)
  {
    BitMeans(s[pos], b);
    LimbBelow(s, pos);
    hide Val, BitSet, Unit, Pow;
    UnitTimes(pos, b);
    UnitTimes(pos, b + 1);
    Between(Unit(pos), Pow(2, b), Pow(2, b + 1), s[pos], Val(s));
  }

  lemma Between(u: nat, p: nat, q: nat, x: nat, v: nat)
    requires p <= x < q && x * u <= v < (x + 1) * u
    ensures u * p <= v < u * q
  {
    TimesGrows(u, p, x);
    TimesGrows(u, x + 1, q);
  }

  // With zero above limb i, the number lies between limb i and its successor, times the weight.
  lemma LimbBelow(s: seq<UInt32>, i: nat)
    requires i < |s| && (forall k | i < k < |s| :: s[k] == 0)
    ensures s[i] * Unit(i) <= Val(s) < (s[i] + 1) * Unit(i)
  {
    hide Val, Unit;
    ValSplit(s, i + 1);
    ValZero(s[i + 1..]);
    ValNext(s, i);
    ValBound(s[..i]);
    Distributes(Unit(i), s[i], 1);
  }

  lemma UnitGrowsFrom2(i: nat)
    requires i >= 2
    ensures BASE * BASE <= Unit(i)
  {
    assert Unit(0) == 1;
    UnitStep(0);
    UnitStep(1);
    PowGrows(2, 64, 32 * i);
  }

  // A limb shifted left by s < 32 bits: the half that stays in its place and the half that
  // moves into the next limb do not overlap with each other's neighbours.
  lemma ShiftedLimb(x: UInt32, s: nat)
    requires s < 32
    ensures 0 <= x / Pow(2, 32 - s) < Pow(2, s) <= BASE
    ensures x * Pow(2, s) == (x / Pow(2, 32 - s)) * BASE + (x * Pow(2, s)) % BASE
    ensures x % Pow(2, 32 - s) >= 0 && (x * Pow(2, s)) % BASE == (x % Pow(2, 32 - s)) * Pow(2, s)
    ensures (x * Pow(2, s)) % BASE + Pow(2, s) <= BASE
    ensures s == 0 ==> x / Pow(2, 32 - s) == 0
  {
    var p, q := Pow(2, s), Pow(2, 32 - s);
    PowersOfTwo();
    PowAdd(2, 32 - s, s);
    assert s == 0 ==> p == 1;
    hide Pow;
    DivBelow(x, q, p);
    DivMod(x, q);
    TimesGrows(p, 1, q);
    Distributes(p, (x / q) * q, x % q);
    Associates(x / q, q, p);
    TimesGrows(p, (x % q) + 1, q);
    Distributes(p, x % q, 1);
    Positive(x % q, p);
    IsQuotient(x * p, BASE, x / q, (x % q) * p);
  }

  // One limb added at place m: over is what falls beyond the top.
  lemma ShiftLeftStep(p: seq<UInt32>, q: seq<UInt32>, x: UInt32, s: nat, m: nat) returns (over: int)
    requires |p| == |q| == WIDTH && s < 32
    requires m >= WIDTH ==> q == p
    requires m == WIDTH - 1 ==> p[m] + (x * Pow(2, s)) % BASE < BASE && q == p[m := p[m] + (x * Pow(2, s)) % BASE]
    requires m < WIDTH - 1 ==> p[m + 1] == 0 && x / Pow(2, 32 - s) < BASE && p[m] + (x * Pow(2, s)) % BASE < BASE
    requires m < WIDTH - 1 ==> q == p[m + 1 := x / Pow(2, 32 - s)][m := p[m] + (x * Pow(2, s)) % BASE]
    ensures Val(q) + over * Modulus() == Val(p) + (x * Pow(2, s)) * Unit(m)
  {
    hide Val, Unit, Pow;
    ShiftedLimb(x, s);
    var hi, lo := x / Pow(2, 32 - s), (x * Pow(2, s)) % BASE;
    UnitStep(m);
    Distributes(Unit(m), hi * BASE, lo);
    Associates(hi, BASE, Unit(m));
    if m >= WIDTH {
      over := (x * Pow(2, s)) * Unit(m - WIDTH);
      UnitAdd(m - WIDTH, WIDTH);
      Associates(x * Pow(2, s), Unit(m - WIDTH), Unit(WIDTH));
    } else if m == WIDTH - 1 {
      over := hi;
      ValUpdate(p, m, p[m] + lo);
    } else {
      over := 0;
      ValUpdate(p, m + 1, hi);
      ValUpdate(p[m + 1 := hi], m, p[m] + lo);
    }
  }

  lemma ShiftLeftNext(a: seq<UInt32>, i: nat, k: nat, s: nat)
    requires i < |a|
    ensures Prefix(a, i + 1, 0) * Pow(2, 32 * k + s)
         == Prefix(a, i, 0) * Pow(2, 32 * k + s) + (a[i] * Pow(2, s)) * Unit(i + k)
  {
    hide Val, Unit, Pow, Prefix;
    PrefixNext(a, a, i, 0, a[i]);
    UnitTimes(k, s);
    UnitAdd(i, k);
    Distributes(Pow(2, 32 * k + s), Prefix(a, i, 0), a[i] * Unit(i));
    Commutes4(a[i], Unit(i), Pow(2, s), Unit(k));
    assert Unit(k) * Pow(2, s) == Pow(2, s) * Unit(k);
    assert Unit(k) * Unit(i) == Unit(i + k);
  }

  lemma PrefixCarry(s: seq<UInt32>, i: nat, carry: nat)
    requires i <= |s|
    ensures Prefix(s, i, carry) == Prefix(s, i, 0) + carry * Unit(i)
  {
  }

  // No sum formed in a multiplication exceeds 64 bits, and its high half is a limb.
  lemma MulFits(carry: nat, p: nat, x: nat, y: nat)
    requires carry < BASE && p < BASE && x < BASE && y < BASE
    ensures 0 <= carry + p + x * y < BASE * BASE && 0 <= (carry + p + x * y) / BASE < BASE
  {
    Positive(x, y);
    TimesGrows(x, y, BASE - 1);
    TimesGrows(BASE - 1, x, BASE - 1);
    DivBelow(carry + p + x * y, BASE, BASE);
  }

  lemma MulRow(d: nat, b: nat, u: nat, p: nat)
    ensures (p + d * u) * b == p * b + (b * d) * u
  {
    Distributes(b, p, d * u);
    Associates(b, d, u);
  }

  lemma RowStep(p: nat, x: nat, y: nat, i: nat, j: nat, t: nat)
    ensures (p + x * y) * Unit(i + j) + (x * Unit(j)) * t == p * Unit(i + j) + (x * Unit(j)) * (t + y * Unit(i))
  {
    UnitAdd(i, j);
    Distributes(x * Unit(j), t, y * Unit(i));
    Distributes(Unit(i + j), p, x * y);
    Commutes4(x, Unit(j), y, Unit(i));
  }

  lemma RowNext(s: seq<UInt32>, before: seq<UInt32>, p: seq<UInt32>, t: seq<UInt32>, i: nat, j: nat, x: nat, carry: nat)
    requires |s| == |before| == |t| == WIDTH && i + j < WIDTH
    requires Prefix(before, i + j, carry) == Prefix(s, i + j, 0) + (x * Unit(j)) * Prefix(t, i, 0)
    requires before[i + j] == s[i + j]
    requires p == before[i + j := (carry + s[i + j] + x * t[i]) % BASE]
    ensures (carry + s[i + j] + x * t[i]) / BASE >= 0
    ensures Prefix(p, i + j + 1, (carry + s[i + j] + x * t[i]) / BASE)
         == Prefix(s, i + j + 1, 0) + (x * Unit(j)) * Prefix(t, i + 1, 0)
  {
    hide Val, Unit, Pow, Prefix;
    Positive(x, t[i]);
    PrefixNext(before, p, i + j, carry, carry + s[i + j] + x * t[i]);
    PrefixNext(s, s, i + j, 0, s[i + j]);
    PrefixNext(t, t, i, 0, t[i]);
    RowStep(s[i + j], x, t[i], i, j, Prefix(t, i, 0));
  }

  lemma Commutes4(a: nat, b: nat, c: nat, d: nat)
    ensures (a * b) * (c * d) == (a * c) * (d * b)
  {
    Associates(a, b, c * d);
    Associates(b, c, d);
    Associates(c, b, d);
    Associates(a, c, d * b);
    assert b * (c * d) == c * (d * b);
  }

  // The limbs of b that lie beyond the top only contribute multiples of the modulus.
  lemma RowDrops(s: seq<UInt32>, p: seq<UInt32>, t: seq<UInt32>, i: nat, j: nat, x: nat, carry: nat)
    requires |s| == |p| == |t| == WIDTH && i + j == WIDTH
    requires Prefix(p, i + j, carry) == Prefix(s, i + j, 0) + (x * Unit(j)) * Prefix(t, i, 0)
    ensures Val(p) + (carry + x * Val(t[i..])) * Modulus() == Val(s) + (x * Unit(j)) * Val(t)
  {
    hide Val, Unit, Pow, Prefix;
    PrefixFull(p);
    PrefixFull(s);
    PrefixCarry(p, WIDTH, carry);
    ValSplit(t, i);
    PrefixCarry(t, i, 0);
    NoCarryIn(t, i);
    UnitAdd(i, j);
    RowTotal(Val(p), Val(s), Val(t), carry, Modulus(), x, Unit(j), Unit(i), Val(t[..i]), Val(t[i..]));
  }

  lemma NoCarryIn(t: seq<UInt32>, i: nat)
    requires i <= |t|
    ensures Prefix(t, i, 0) == Val(t[..i])
  {
  }

  lemma RowTotal(p: nat, s: nat, t: nat, carry: nat, m: nat, x: nat, u: nat, w: nat, low: nat, high: nat)
    requires t == low + w * high && m == w * u && p + carry * m == s + (x * u) * low
    ensures p + (carry + x * high) * m == s + (x * u) * t
  {
    Distributes(x * u, low, w * high);
    Commutes4(x, u, high, w);
    Distributes(m, carry, x * high);
    assert (x * u) * (w * high) == (x * high) * (w * u);
  }

  // Up to limb i, t is one more than s, with the carry out of limb i; above it they are the same.
  ghost predicate IsNext(s: seq<UInt32>, t: seq<UInt32>, i: nat) {
    && |s| == |t| == WIDTH && i < WIDTH && t[i] == (s[i] + 1) % BASE
    && (forall k | i < k < WIDTH :: t[k] == s[k])
    && Prefix(t, i + 1, (s[i] + 1) / BASE) == Prefix(s, i + 1, 0) + 1
  }

  lemma FirstUp(s: seq<UInt32>, t: seq<UInt32>)
    requires |s| == WIDTH && t == s[0 := (s[0] + 1) % BASE]
    ensures IsNext(s, t, 0)
  {
    hide Val, Unit, Prefix;
    PrefixEmpty(s, 0);
    PrefixEmpty(s, 1);
    PrefixNext(s, t, 0, 1, s[0] as int + 1);
    PrefixNext(s, s, 0, 0, s[0]);
    UnitOne();
  }

  lemma UnitOne()
    ensures Unit(0) == 1
  {
  }

  lemma NextUp(s: seq<UInt32>, before: seq<UInt32>, t: seq<UInt32>, i: nat)
    requires 0 < i < WIDTH && IsNext(s, before, i - 1) && before[i - 1] == 0
    requires t == before[i := (s[i] + 1) % BASE]
    ensures IsNext(s, t, i)
  {
    hide Val, Unit, Prefix;
    OneCarried(s[i - 1]);
    PrefixNext(before, t, i, 1, s[i] as int + 1);
    PrefixNext(s, s, i, 0, s[i]);
  }

  lemma OneCarried(x: UInt32)
    ensures (x + 1) % BASE == 0 <==> (x + 1) / BASE == 1
    ensures (x + 1) % BASE == 0 || (x + 1) / BASE == 0
  {
  }

  lemma FirstDown(s: seq<UInt32>, t: seq<UInt32>)
    requires |s| == WIDTH && t == s[0 := (s[0] - 1) % BASE]
    ensures IsNext(t, s, 0)
  {
    hide IsNext;
    OneBack(s[0]);
    assert s == t[0 := (t[0] + 1) % BASE];
    FirstUp(t, s);
  }

  lemma OneBack(x: UInt32)
    ensures 0 <= (x - 1) % BASE < BASE && ((x - 1) % BASE + 1) % BASE == x
    ensures (x - 1) % BASE == BASE - 1 <==> x == 0
  {
  }

  lemma NextDown(s: seq<UInt32>, before: seq<UInt32>, t: seq<UInt32>, i: nat)
    requires 0 < i < WIDTH && IsNext(before, s, i - 1) && before[i - 1] == BASE - 1
    requires t == before[i := (s[i] - 1) % BASE]
    ensures IsNext(t, s, i)
  {
    hide Val, Unit, Prefix;
    OneBack(s[i]);
    OneCarried(before[i - 1]);
    PrefixNext(before, before, i, 0, before[i]);
    PrefixNext(s, s, i, 1, t[i] as int + 1);
    PrefixNext(t, t, i, 0, t[i]);
    SamePrefix(before, t, i);
  }

  lemma SamePrefix(s: seq<UInt32>, t: seq<UInt32>, i: nat)
    requires i <= |s| && i <= |t| && s[..i] == t[..i]
    ensures Prefix(s, i, 0) == Prefix(t, i, 0)
  {
  }

  lemma CarryEnds(s: seq<UInt32>, t: seq<UInt32>, i: nat)
    requires IsNext(s, t, i) && (i == WIDTH - 1 || t[i] != 0)
    ensures Val(t) == (Val(s) + 1) % Modulus()
  {
    hide Val, Unit, Prefix, Modulus;
    OneCarried(s[i]);
    CarryStops(s, t, i, (s[i] + 1) / BASE, Prefix(s, i + 1, 0) + 1);
  }

  lemma BorrowEnds(s: seq<UInt32>, t: seq<UInt32>, i: nat)
    requires IsNext(t, s, i) && (i == WIDTH - 1 || t[i] != BASE - 1)
    ensures Val(t) == (Val(s) - 1) % Modulus()
  {
    hide Val, Unit, Prefix;
    assert i == WIDTH - 1 || s[i] != 0;
    CarryEnds(t, s, i);
    ValBound(t);
    ModPredecessor(Val(t), Val(s), Modulus());
  }

  lemma ModPredecessor(v: nat, w: nat, m: nat)
    requires v < m && w == (v + 1) % m
    ensures v == (w - 1) % m
  {
    DivMod(v + 1, m);
    assert v == (w - 1) + ((v + 1) / m) * m;
    ModShift(w - 1, (v + 1) / m, m);
    IsQuotient(v, m, 0, v);
  }

  // Above limb i nothing changed, and either nothing is carried on or limb i is the top one.
  lemma CarryStops(s: seq<UInt32>, t: seq<UInt32>, i: nat, carry: nat, w: nat)
    requires |s| == |t| == WIDTH && i < WIDTH && (forall k | i < k < WIDTH :: t[k] == s[k])
    requires Prefix(t, i + 1, carry) == w
    requires i == WIDTH - 1 || carry == 0
    ensures Val(t) == (Val(s) - Prefix(s, i + 1, 0) + w) % Modulus()
  {
    hide Val, Unit, Pow;
    assert t[i + 1..] == s[i + 1..];
    ValSplit(s, i + 1);
    ValSplit(t, i + 1);
    if i == WIDTH - 1 {
      assert s[..i + 1] == s;
      PrefixFull(s);
      PrefixAll(t, carry, w);
    } else {
      ValBound(t);
      IsQuotient(Val(t), Modulus(), 0, Val(t));
    }
  }

  lemma {:induction false} Complement(s: seq<UInt32>, t: seq<UInt32>)
    requires |s| == |t| && forall k | 0 <= k < |s| :: t[k] == BASE - 1 - s[k]
    ensures Val(t) == Unit(|s|) - 1 - Val(s)
  {
    if s != [] {
      var n := |s| - 1;
      Complement(s[..n], t[..n]);
      UnitStep(n);
      Distributes(Unit(n), BASE - 1, s[n]);
      Distributes(Unit(n), BASE, 1);
    }
  }

  lemma ModMinus(a: nat, b: nat, m: nat)
    requires m > 0
    ensures (a + (m - b) % m) % m == (a - b) % m
  {
    DivMod(m - b, m);
    var q := (m - b) / m;
    Distributes(m, 1, q);
    assert a + (m - b) % m == (a - b) + (1 - q) * m;
    ModShift(a - b, 1 - q, m);
  }

  lemma TwoLimbs(s: seq<UInt32>, b: nat)
    requires |s| == WIDTH && s[0] == b % BASE && s[1] == b / BASE
    requires forall k | 2 <= k < WIDTH :: s[k] == 0
    ensures Val(s) == b
  {
    ValSplit(s, 2);
    ValZero(s[2..]);
    ValNext(s, 1);
    ValNext(s, 0);
    UnitStep(0);
    assert s[..0] == [];
    DivMod(b, BASE);
  }
}

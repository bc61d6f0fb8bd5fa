/** The compact form of a 256-bit target: an exponent in bytes and a 23-bit mantissa. */
module Compact {
  import opened Numbers

  // The number of bytes a value takes.
  function Size(v: nat): nat {
    if v == 0 then 0 else 1 + Size(v / 256)
  }

  lemma {:induction false} SizeIs(v: nat, n: nat)
    requires if n == 0 then v == 0 else Pow(256, n - 1) <= v < Pow(256, n)
    ensures Size(v) == n
  {
    if n > 0 {
      if n > 1 {
        var p := Pow(256, n - 2);
        hide Pow;
        DivMod(v, 256);
      } else {
        assert Pow(256, 0) == 1;
      }
      SizeIs(v / 256, n - 1);
    }
  }

  lemma {:induction false} SizeBounds(v: nat)
    ensures v < Pow(256, Size(v))
    ensures v > 0 ==> Size(v) > 0 && Pow(256, Size(v) - 1) <= v
  {
    if v > 0 {
      SizeBounds(v / 256);
    }
  }

  // Shifts by whole bytes.
  function Up(v: nat, k: nat): nat {
    Positive(v, Pow(256, k));
    v * Pow(256, k)
  }

  function Down(v: nat, k: nat): nat {
    DivMod(v, Pow(256, k));
    v / Pow(256, k)
  }

  lemma DownUp(v: nat, k: nat)
    ensures Down(Up(v, k), k) == v
  {
    hide Pow;
    IsQuotient(v * Pow(256, k), Pow(256, k), v, 0);
  }

  lemma UpUp(v: nat, j: nat, k: nat)
    ensures Up(Up(v, j), k) == Up(v, j + k)
  {
    hide Pow;
    PowAdd(256, j, k);
    Associates(v, Pow(256, j), Pow(256, k));
  }

  lemma DownDown(v: nat, j: nat, k: nat)
    ensures Down(Down(v, j), k) == Down(v, j + k)
  {
    hide Pow;
    PowAdd(256, j, k);
    DivDiv(v, Pow(256, j), Pow(256, k));
  }

  lemma UpDown(v: nat, k: nat)
    ensures Up(Down(v, k), k) <= v < Up(Down(v, k), k) + Pow(256, k)
  {
    hide Pow;
    DivMod(v, Pow(256, k));
  }

  // Comparing with a power of 256 through a shift.
  lemma DownBelow(v: nat, k: nat, j: nat)
    ensures Down(v, k) < Pow(256, j) <==> v < Pow(256, j + k)
  {
    hide Pow;
    PowAdd(256, j, k);
    DivBelow(v, Pow(256, k), Pow(256, j));
  }

  lemma UpBelow(v: nat, k: nat, j: nat)
    ensures Up(v, k) < Pow(256, j + k) <==> v < Pow(256, j)
  {
    DownUp(v, k);
    DownBelow(Up(v, k), k, j);
  }

  lemma BytePowers()
    ensures Pow(256, 0) == 1 && Pow(256, 1) == 0x100 && Pow(256, 2) == 0x1_0000 && Pow(256, 3) == 0x100_0000
  {
    assert Pow(256, 1) == 0x100 * Pow(256, 0);
    assert Pow(256, 2) == 0x100 * Pow(256, 1);
    assert Pow(256, 3) == 0x100 * Pow(256, 2);
  }

  // ---------------------------------------------------------------- decoding

  function Exponent(c: UInt32): nat {
    c / 0x100_0000
  }

  function Mantissa(c: UInt32): nat {
    c % 0x80_0000
  }

  // mantissa * 256^(exponent - 3), cut to a whole number.
  function Scaled(exponent: nat, mantissa: nat): nat {
    if exponent <= 3 then Down(mantissa, 3 - exponent) else Up(mantissa, exponent - 3)
  }

  function Decoded(c: UInt32): nat {
    Scaled(Exponent(c), Mantissa(c))
  }

  // The source's test for a value of 2^256 and more, on the mantissa as shifted.
  lemma OverflowIsExact(e: nat, w: nat)
    requires e > 3 && w < 0x80_0000
    ensures (w != 0 && (e > 34 || (w > 0xff && e > 33) || (w > 0xffff && e > 32))) <==> Up(w, e - 3) >= Pow(256, 32)
  {
    BytePowers();
    hide Pow;
    if e >= 35 {
      PowGrows(256, 32, e - 3);
      if w > 0 {
        TimesGrows(Pow(256, e - 3), 1, w);
      } else {
        assert 0 * Pow(256, e - 3) == 0;
      }
    } else if e >= 32 {
      UpBelow(w, e - 3, 35 - e);
    } else {
      UpBelow(w, e - 3, 3);
      PowGrows(256, e, 32);
    }
  }

  lemma ShortFits(e: nat, w: nat)
    requires e <= 3 && w < 0x80_0000
    ensures Down(w, 3 - e) < Pow(256, 32)
  {
    BytePowers();
    hide Pow;
    DownBelow(w, 3 - e, e);
    PowGrows(256, e, 32);
    PowGrows(256, 3, 32);
    UpDown(w, 3 - e);
    TimesGrows(Down(w, 3 - e), 1, Pow(256, 3 - e));
  }

  // ---------------------------------------------------------------- encoding

  // The top three bytes of a value, padded to three when it is shorter.
  function TopThree(v: nat): nat {
    if Size(v) <= 3 then Up(v, 3 - Size(v)) else Down(v, Size(v) - 3)
  }

  // The mantissa drops to two bytes when its top bit would be the sign.
  predicate IsTall(v: nat) {
    TopThree(v) >= 0x80_0000
  }

  function EncodedExponent(v: nat): nat {
    if IsTall(v) then Size(v) + 1 else Size(v)
  }

  function EncodedMantissa(v: nat): nat {
    if IsTall(v) then TopThree(v) / 256 else TopThree(v)
  }

  // What GetCompact returns for a value without a sign.
  function Packed(v: nat): nat {
    EncodedExponent(v) * 0x100_0000 + EncodedMantissa(v)
  }

  lemma TopThreeBounds(v: nat)
    ensures TopThree(v) < 0x100_0000
    ensures v > 0 ==> TopThree(v) >= 0x1_0000
  {
    BytePowers();
    SizeBounds(v);
    hide Pow;
    var n := Size(v);
    if n <= 3 {
      UpBelow(v, 3 - n, n);
      if n > 0 { UpBelow(v, 3 - n, n - 1); }
    } else {
      DownBelow(v, n - 3, 3);
      DownBelow(v, n - 3, 2);
    }
  }

  lemma PackedFits(v: nat)
    requires v < Pow(256, 32)
    ensures Size(v) <= 32 && EncodedMantissa(v) < 0x80_0000 && Packed(v) < 0x1_0000_0000
    ensures Exponent(Packed(v)) == EncodedExponent(v) && Mantissa(Packed(v)) == EncodedMantissa(v)
    ensures Packed(v) % 0x100_0000 < 0x80_0000
  {
    hide Pow, Size, EncodedExponent, EncodedMantissa, Exponent, Mantissa;
    EncodedFits(v);
    Fields(EncodedExponent(v), EncodedMantissa(v));
  }

  lemma EncodedFits(v: nat)
    requires v < Pow(256, 32)
    ensures Size(v) <= 32 && EncodedExponent(v) <= 33 && EncodedMantissa(v) < 0x80_0000
  {
    hide Pow, Size, TopThree;
    SizeFits(v);
    TopThreeBounds(v);
  }

  lemma SizeFits(v: nat)
    requires v < Pow(256, 32)
    ensures Size(v) <= 32
  {
    SizeBounds(v);
    hide Pow;
    if v > 0 && Size(v) > 32 {
      PowGrows(256, 32, Size(v) - 1);
    }
  }

  lemma Fields(e: nat, m: nat)
    requires e < 0x100 && m < 0x80_0000
    ensures e * 0x100_0000 + m < 0x1_0000_0000
    ensures Exponent(e * 0x100_0000 + m) == e && Mantissa(e * 0x100_0000 + m) == m
    ensures (e * 0x100_0000 + m) % 0x100_0000 == m
  {
    var c := e * 0x100_0000 + m;
    IsQuotient(c, 0x100_0000, e, m);
    IsQuotient(c, 0x80_0000, 2 * e, m);
  }

  function Compacted(v: nat): (c: UInt32)
    requires v < Pow(256, 32)
  {
    PackedFits(v);
    Packed(v)
  }

  // How many low bytes of a value the encoding drops.
  function Dropped(v: nat): nat {
    var kept := if IsTall(v) then 2 else 3;
    if Size(v) > kept then Size(v) - kept else 0
  }

  // Decoding an encoding cuts the dropped bytes off.
  lemma EncodingCuts(v: nat)
    ensures Scaled(EncodedExponent(v), EncodedMantissa(v)) == Up(Down(v, Dropped(v)), Dropped(v))
  {
    BytePowers();
    hide Pow, Size;
    var n := Size(v);
    UpDown(v, 0);
    if n > 3 {
      DownDown(v, n - 3, 1);
    } else if IsTall(v) {
      if n < 3 {
        UpUp(v, 2 - n, 1);
        DownUp(Up(v, 2 - n), 1);
        DownUp(v, 2 - n);
      }
    } else {
      DownUp(v, 3 - n);
    }
  }

  // A value that loses bytes is at least 2^15 times the weight of what it loses.
  lemma DroppedIsSmall(v: nat)
    ensures Dropped(v) > 0 ==> 0x8000 * Pow(256, Dropped(v)) <= v
  {
    var n, k := Size(v), Dropped(v);
    if k > 0 {
      TopThreeBounds(v);
      BytePowers();
      hide Pow, Size;
      if IsTall(v) {
        if n > 3 { DownDown(v, n - 3, 1); }
        assert Down(v, k) == TopThree(v) / 256;
      } else {
        assert Down(v, k) == TopThree(v);
      }
      UpDown(v, k);
      TimesGrows(Pow(256, k), 0x8000, Down(v, k));
    }
  }

  lemma DecodedIsCut(v: nat)
    requires v < Pow(256, 32)
    ensures Decoded(Compacted(v)) == Up(Down(v, Dropped(v)), Dropped(v))
  {
    hide Pow, Size, Scaled, Dropped, Up, Down, Packed, EncodedExponent, EncodedMantissa;
    PackedFits(v);
    EncodingCuts(v);
  }

  // Cutting v to a multiple of w, where w is 1 or at most v / 2^15.
  lemma CutRoundsDown(v: nat, w: nat)
    requires w > 0 && (w > 1 ==> 0x8000 * w <= v)
    ensures var d := (v / w) * w; d <= v && (v - d) * 0x8000 <= v && (v > 0 ==> (v - d) * 0x8000 < v) && (d == v <==> v % w == 0)
  {
    DivMod(v, w);
  }

  lemma UpDownIsCut(v: nat, k: nat)
    ensures Pow(256, k) > 0 && Up(Down(v, k), k) == (v / Pow(256, k)) * Pow(256, k)
  {
    hide Pow;
  }

  // SetCompact(GetCompact(v)) is at most v, off by less than one part in 2^15, and exact when
  // the dropped bytes are zero.
  lemma RoundsDown(v: nat)
    requires v < Pow(256, 32)
    ensures Decoded(Compacted(v)) <= v
    ensures (v - Decoded(Compacted(v))) * 0x8000 <= v
    ensures v > 0 ==> (v - Decoded(Compacted(v))) * 0x8000 < v
    ensures Decoded(Compacted(v)) == v <==> v % Pow(256, Dropped(v)) == 0
  {
    hide Pow, Decoded, Compacted, Dropped, Up, Down;
    DecodedIsCut(v);
    DroppedIsSmall(v);
    UpDownIsCut(v, Dropped(v));
    BytePowers();
    CutRoundsDown(v, Pow(256, Dropped(v)));
  }

  lemma CutKeepsSize(v: nat)
    ensures Size(Up(Down(v, Dropped(v)), Dropped(v))) == Size(v)
  {
    var n, k := Size(v), Dropped(v);
    var d := Up(Down(v, k), k);
    SizeBounds(v);
    BytePowers();
    hide Pow;
    UpDown(v, k);
    if n > 0 {
      if k > 0 {
        DownBelow(v, k, n - 1 - k);
        UpBelow(Down(v, k), k, n - 1 - k);
      }
      SizeIs(d, n);
    }
  }

  // Encoding what was decoded gives the same encoding.
  lemma CutKeepsTop(v: nat)
    ensures IsTall(Up(Down(v, Dropped(v)), Dropped(v))) == IsTall(v)
    ensures EncodedMantissa(Up(Down(v, Dropped(v)), Dropped(v))) == EncodedMantissa(v)
  {
    var n, k := Size(v), Dropped(v);
    var d := Up(Down(v, k), k);
    CutKeepsSize(v);
    BytePowers();
    hide Pow, Size;
    if k > 0 {
      DownUp(Down(v, k), k);
      if IsTall(v) && n > 3 {
        DownDown(v, n - 3, 1);
        UpUp(Down(v, k), 1, n - 3);
        DownUp(Up(Down(v, k), 1), n - 3);
      }
    }
  }

  lemma Reencodes(v: nat)
    requires v < Pow(256, 32)
    ensures Decoded(Compacted(v)) < Pow(256, 32)
    ensures Compacted(Decoded(Compacted(v))) == Compacted(v)
  {
    PackedFits(v);
    RoundsDown(v);
    EncodingCuts(v);
    CutKeepsSize(v);
    CutKeepsTop(v);
  }

  lemma {:induction false} SizeGrows(v: nat, w: nat)
    requires v <= w
    ensures Size(v) <= Size(w)
  {
    if v > 0 {
      SizeGrows(v / 256, w / 256);
    }
  }

  // The encoding keeps the order of values.
  lemma PackedGrows(v: nat, w: nat)
    requires v <= w
    ensures Packed(v) <= Packed(w)
  {
    SizeGrows(v, w);
    TopThreeBounds(v);
    TopThreeBounds(w);
    hide Pow, Size;
    if Size(v) == Size(w) {
      var n := Size(v);
      if n <= 3 {
        TimesGrows(Pow(256, 3 - n), v, w);
      } else {
        DivGrows(v, w, Pow(256, n - 3));
      }
    }
  }
}

/** The compact form in literal numbers: what the sign, the exponent and the mantissa are, and
    that a signed number comes back with its sign. */
module CompactLaws {
  import opened Numbers
  import opened Compact

  // The documented meaning: mantissa times 256 to the exponent less three.
  lemma DecodedIs(c: UInt32)
    ensures var e, m := c / 0x100_0000, c % 0x80_0000;
      Decoded(c) == if e >= 3 then m * Pow(256, e - 3) else if e == 2 then m / 0x100 else if e == 1 then m / 0x1_0000 else 0
  {
    BytePowers();
    hide Pow;
    if c / 0x100_0000 == 3 {
      assert (c % 0x80_0000) * Pow(256, 0) == (c % 0x80_0000) / Pow(256, 0);
    }
  }

  // The mantissa of an encoding is two or three bytes long, whatever the size of the number.
  lemma EncodingIsCanonical(v: nat)
    requires 0 < v < Pow(256, 32)
    ensures var c := Compacted(v);
      && 0x8000 <= c % 0x100_0000 < 0x80_0000 && 1 <= c / 0x100_0000 <= 33
      && (v < 0x80_0000 ==> c / 0x100_0000 <= 3)
  {
    hide Pow, EncodedExponent, EncodedMantissa, Exponent, Mantissa, Size, Packed;
    PackedFits(v);
    MantissaBounds(v);
    ExponentBounds(v);
    PackedIs(v);
    FieldsOf(EncodedExponent(v), EncodedMantissa(v));
  }

  lemma PackedIs(v: nat)
    ensures Packed(v) == EncodedExponent(v) * 0x100_0000 + EncodedMantissa(v)
  {
    hide EncodedExponent, EncodedMantissa;
  }

  lemma MantissaBounds(v: nat)
    requires v > 0
    ensures 0x8000 <= EncodedMantissa(v) < 0x80_0000
  {
    hide TopThree, Size;
    TopThreeBounds(v);
  }

  lemma ExponentBounds(v: nat)
    requires 0 < v < Pow(256, 32)
    ensures 1 <= EncodedExponent(v) <= 33
    ensures v < 0x80_0000 ==> EncodedExponent(v) <= 3
  {
    hide Pow, Size, TopThree;
    SizeFits(v);
    SizeBounds(v);
    if v < 0x80_0000 {
      ShortExponent(v);
    }
  }

  lemma ShortExponent(v: nat)
    requires 0 < v < 0x80_0000
    ensures Size(v) <= 3 && (Size(v) == 3 ==> !IsTall(v))
  {
    BytePowers();
    SizeBounds(v);
    hide Pow, Size;
    if Size(v) > 3 {
      PowGrows(256, 3, Size(v) - 1);
    }
  }

  lemma FieldsOf(e: nat, m: nat)
    requires e < 0x100 && m < 0x100_0000
    ensures (e * 0x100_0000 + m) / 0x100_0000 == e && (e * 0x100_0000 + m) % 0x100_0000 == m
  {
    IsQuotient(e * 0x100_0000 + m, 0x100_0000, e, m);
  }

  // Decoding what GetCompact returns for a number that is not zero gives back exactly the sign
  // it was asked for, and the same number whatever the sign; zero has none.
  lemma SignComesBack(v: nat, fNegative: bool)
    requires v < Pow(256, 32)
    ensures EncodedMantissa(v) != 0 <==> v > 0
    ensures var c := Compacted(v) + (if fNegative && EncodedMantissa(v) != 0 then 0x80_0000 else 0);
      && c < 0x1_0000_0000
      && Decoded(c) == Decoded(Compacted(v))
      && (Decoded(c) != 0 <==> v > 0)
      && (c % 0x100_0000 >= 0x80_0000 && Decoded(c) != 0 <==> fNegative && v > 0)
  {
    hide Pow, EncodedExponent, EncodedMantissa, Size, Packed, Decoded, Dropped;
    PackedFits(v);
    RoundsDown(v);
    if v > 0 {
      MantissaBounds(v);
    } else {
      ZeroMantissa();
    }
    SignIsApart(Compacted(v));
  }

  lemma ZeroMantissa()
    ensures EncodedMantissa(0) == 0
  {
  }

  // The sign stands apart from exponent and mantissa.
  lemma SignIsApart(c: UInt32)
    requires c % 0x100_0000 < 0x80_0000
    ensures c + 0x80_0000 < 0x1_0000_0000
    ensures (c + 0x80_0000) % 0x100_0000 >= 0x80_0000
    ensures Decoded(c + 0x80_0000) == Decoded(c)
  {
    var e, m := c / 0x100_0000, c % 0x100_0000;
    FieldsOf(e, m + 0x80_0000);
    SameFields(c);
    hide Scaled;
  }

  lemma SameFields(c: UInt32)
    requires c % 0x100_0000 < 0x80_0000
    ensures (c + 0x80_0000) / 0x100_0000 == c / 0x100_0000
    ensures (c + 0x80_0000) % 0x80_0000 == c % 0x80_0000
  {
  }

  // Values of the unit tests, one for each way through the code.
  lemma KnownValues()
    ensures Decoded(0x0112_3456) == 0x12 && Decoded(0x0212_3456) == 0x1234 && Decoded(0x0312_3456) == 0x12_3456
    ensures Decoded(0x0412_3456) == 0x1234_5600 && Decoded(0x0492_3456) == 0x1234_5600 && Decoded(0x0500_9234) == 0x9234_0000
    ensures Decoded(0x0192_3456) == 0x12 && Decoded(0x0180_3456) == 0
  {
    BytePowers();
    hide Pow;
    DecodedIs(0x0112_3456);
    DecodedIs(0x0212_3456);
    DecodedIs(0x0312_3456);
    DecodedIs(0x0412_3456);
    DecodedIs(0x0492_3456);
    DecodedIs(0x0500_9234);
    DecodedIs(0x0192_3456);
    DecodedIs(0x0180_3456);
    hide Decoded;
  }
}

/** The serialized forms by themselves: the documented value of a variable-length integer, the
    documented code of an amount, and the bytes of every kind of script. */
module CodecLaws {
  import opened Numbers
  import opened Options
  import opened VarInts
  import opened Amounts
  import opened ScriptCodec

  // ---------------------------------------------------------------- variable-length integers

  // (a[len-1] & 0x7F) + sum(j=1..i, 128^j * ((a[len-j-1] & 0x7F) + 1))
  function SumTo(a: seq<Byte>, i: nat): nat
    requires i < |a|
  {
    if i == 0 then a[|a| - 1] % 128 else
      Positive(Pow(128, i), a[|a| - 1 - i] % 128 + 1);
      SumTo(a, i - 1) + Pow(128, i) * (a[|a| - 1 - i] % 128 + 1)
  }

  // The number that bytes encode.
  function Value(a: seq<Byte>): nat
    requires a != []
  {
    SumTo(a, |a| - 1)
  }

  // Only the last byte has its high bit clear.
  predicate IsVarInt(a: seq<Byte>) {
    a != [] && a[|a| - 1] < 128 && forall i | 0 <= i < |a| - 1 :: a[i] >= 128
  }

  // The sum over the bytes before the last one, divided by 128.
  function Front(p: seq<Byte>): nat {
    if p == [] then 0 else
      Positive(Pow(128, |p| - 1), p[0] % 128 + 1);
      Pow(128, |p| - 1) * (p[0] % 128 + 1) + Front(p[1..])
  }

  lemma {:induction false} FrontAppends(p: seq<Byte>, b: Byte)
    ensures Front(p + [b]) == 128 * Front(p) + b % 128 + 1
  {
    hide Pow;
    if p == [] {
      assert Pow(128, 0) == 1 by { NoPower(); }
      assert (p + [b])[1..] == [];
    } else {
      assert (p + [b])[1..] == p[1..] + [b];
      FrontAppends(p[1..], b);
      NextPower(|p|);
      Associates(128, Pow(128, |p| - 1), p[0] % 128 + 1);
    }
  }

  lemma NoPower()
    ensures Pow(128, 0) == 1
  {
  }

  lemma NextPower(n: nat)
    requires n > 0
    ensures Pow(128, n) == 128 * Pow(128, n - 1)
  {
  }

  lemma {:induction false} SumIsFront(p: seq<Byte>, b: Byte, i: nat)
    requires i <= |p|
    ensures SumTo(p + [b], i) == b % 128 + 128 * Front(p[|p| - i..])
  {
    hide Pow;
    if i > 0 {
      SumIsFront(p, b, i - 1);
      assert p[|p| - i..][1..] == p[|p| - i + 1..];
      NextPower(i);
      Associates(128, Pow(128, i - 1), p[|p| - i] % 128 + 1);
    }
  }

  lemma ValueIs(p: seq<Byte>, b: Byte)
    ensures Value(p + [b]) == b % 128 + 128 * Front(p)
  {
    SumIsFront(p, b, |p|);
    assert p[0..] == p;
  }

  lemma {:induction false} LeadingValue(n: nat)
    ensures Front(Leading(n)) == n + 1 && Leading(n) != [] && forall i | 0 <= i < |Leading(n)| :: Leading(n)[i] >= 128
  {
    if n <= 0x7F {
      FrontAppends([], n + 0x80);
      assert [] + [n + 0x80] == Leading(n);
    } else {
      LeadingValue(n / 128 - 1);
      FrontAppends(Leading(n / 128 - 1), n % 128 + 0x80);
    }
  }

  // The bytes written for a number encode it by the documented sum, and only the last one has
  // its high bit clear; their number grows as documented.
  lemma VarIntIsDocumented(n: nat)
    ensures IsVarInt(VarInt(n)) && Value(VarInt(n)) == n
    ensures |VarInt(n)| == 1 <==> n <= 127
    ensures |VarInt(n)| <= 2 <==> n <= 16_511
    ensures |VarInt(n)| <= 3 <==> n <= 2_113_663
  {
    if n <= 0x7F {
      ValueIs([], n);
      assert [] + [n] == VarInt(n);
    } else {
      LeadingValue(n / 128 - 1);
      ValueIs(Leading(n / 128 - 1), n % 128);
      LeadingSizes(n / 128 - 1);
    }
  }

  lemma LeadingSizes(m: nat)
    ensures |Leading(m)| >= 1 && (|Leading(m)| == 1 <==> m <= 127) && (|Leading(m)| <= 2 <==> m <= 16_511)
  {
    if m > 127 && m / 128 - 1 > 127 {
      assert |Leading(m / 128 - 1)| >= 2;
    }
  }

  // The last seven bits of a number, and the rest.
  lemma Sevens(f: nat, d: nat)
    requires d < 128
    ensures (128 * f + d) / 128 == f && (128 * f + d) % 128 == d
  {
    IsQuotient(128 * f + d, 128, f, d);
  }

  lemma FirstLeading(b: Byte)
    requires b >= 128
    ensures Leading(b % 128) == [b] && Front([b]) == b % 128 + 1
  {
    FrontAppends([], b);
    assert [] + [b] == [b];
  }

  lemma {:induction false} LeadingOfFront(p: seq<Byte>)
    requires p != [] && forall i | 0 <= i < |p| :: p[i] >= 128
    ensures Front(p) > 0 && Leading(Front(p) - 1) == p
  {
    hide Front, Leading;
    var q, b := p[..|p| - 1], p[|p| - 1];
    assert p == q + [b];
    if q == [] {
      FirstLeading(b);
    } else {
      LeadingOfFront(q);
      FrontAppends(q, b);
      Sevens(Front(q), b % 128);
      NextBytes(Front(p) - 1, Front(q) - 1);
    }
  }

  // Every number has exactly one encoding: bytes of the right form are what is written for the
  // number they encode.
  lemma VarIntIsUnique(a: seq<Byte>)
    requires IsVarInt(a)
    ensures VarInt(Value(a)) == a
  {
    var p, b := a[..|a| - 1], a[|a| - 1];
    assert a == p + [b];
    ValueIs(p, b);
    hide Front, Leading, VarInt, Value;
    if p == [] {
      NoFront(b);
    } else {
      LeadingOfFront(p);
      Sevens(Front(p), b);
      LastByte(Value(a), Front(p) - 1);
    }
  }

  lemma NoFront(b: Byte)
    requires b < 128
    ensures Front([]) == 0 && VarInt(b) == [b] && b % 128 == b
  {
  }

  // The documented encodings; those of 16511 and 65535 are not the documented ones.
  lemma KnownVarInts()
    ensures VarInt(0) == [0] && VarInt(127) == [0x7F] && VarInt(128) == [0x80, 0] && VarInt(255) == [0x80, 0x7F]
    ensures VarInt(256) == [0x81, 0] && VarInt(16383) == [0xFE, 0x7F] && VarInt(16384) == [0xFF, 0] && VarInt(16511) == [0xFF, 0x7F]
  {
  }

  lemma LongVarInts()
    ensures VarInt(65535) == [0x82, 0xFE, 0x7F]
    ensures VarInt(0x1_0000_0000) == [0x8E, 0xFE, 0xFE, 0xFF, 0]
  {
    assert Leading(2) == [0x82] && Leading(14) == [0x8E];
    hide VarInt, Leading;
    NextBytes(510, 2);
    NextBytes(0x7FE, 14);
    NextBytes(0x3_FFFE, 0x7FE);
    NextBytes(0x1FF_FFFF, 0x3_FFFE);
    LastByte(65535, 510);
    LastByte(0x1_0000_0000, 0x1FF_FFFF);
  }

  lemma NextBytes(n: nat, m: nat)
    requires n > 0x7F && m == n / 128 - 1
    ensures Leading(n) == Leading(m) + [n % 128 + 0x80]
  {
  }

  lemma LastByte(n: nat, m: nat)
    requires n > 0x7F && m == n / 128 - 1
    ensures VarInt(n) == Leading(m) + [n % 128]
  {
    hide Leading;
  }

  // The last value of a sum in a type of a given width does not depend on when it wraps.
  lemma WrapsLate(n: nat, m: nat, d: nat, width: nat)
    requires width > 0 && n % width == m % width
    ensures (n * 128 + d) % width == (m * 128 + d) % width && (n + d) % width == (m + d) % width
  {
    var q := n / width - m / width;
    DivMod(n, width);
    DivMod(m, width);
    Distributes(width, n / width, m / width);
    assert n == m + q * width;
    SameRemainder(m + d, q, width);
    Associates(128, q, width);
    SameRemainder(m * 128 + d, 128 * q, width);
  }

  lemma SameRemainder(a: int, q: int, width: nat)
    requires width > 0
    ensures (a + q * width) % width == a % width
  {
    var r := a % width;
    var k := a / width;
    assert a == k * width + r;
    Distributes(width, k, q);
    IsQuotient(a + q * width, width, k + q, r);
  }

  // Reading on with a number so far that is the same modulo the width.
  lemma {:induction false} ReadsOn(p: seq<Byte>, b: Byte, t: seq<Byte>, k: nat, n: nat, width: nat)
    requires width > 0 && b < 128 && k <= |p| && (forall i | 0 <= i < |p| :: p[i] >= 128)
    requires n % width == Front(p[..k]) % width
    ensures ParseVarInt(p[k..] + [b] + t, n, width) == Some((Value(p + [b]) % width, t))
    decreases |p| - k
  {
    hide Front, Value;
    var s := p[k..] + [b] + t;
    if k == |p| {
      assert s == [b] + t && s[1..] == t && p[..k] == p;
      ValueIs(p, b);
      WrapsLate(n, Front(p), b, width);
    } else {
      var c := p[k];
      assert s == [c] + (p[k + 1..] + [b] + t) && s[1..] == p[k + 1..] + [b] + t;
      assert p[..k + 1] == p[..k] + [c];
      FrontAppends(p[..k], c);
      WrapsLate(n, Front(p[..k]), c % 128, width);
      var m := (n * 128 + c % 128) % width;
      Idempotent(n * 128 + c % 128, width);
      WrapsLate(m, Front(p[..k]) * 128 + c % 128, 1, width);
      Idempotent(m + 1, width);
      ReadsOn(p, b, t, k + 1, (m + 1) % width, width);
    }
  }

  lemma Idempotent(a: nat, width: nat)
    requires width > 0
    ensures a % width >= 0 && (a % width) % width == a % width
  {
    DivMod(a, width);
    IsQuotient(a % width, width, 0, a % width);
  }

  // Any bytes of the right form, in front of anything, are read as the number they encode modulo
  // the width of the type, and no more is read.
  lemma ReadsModulo(a: seq<Byte>, t: seq<Byte>, width: nat)
    requires IsVarInt(a) && width > 0
    ensures ParseVarInt(a + t, 0, width) == Some((Value(a) % width, t))
  {
    var p, b := a[..|a| - 1], a[|a| - 1];
    assert a == p + [b] && p[0..] == p && p[..0] == [];
    ReadsOn(p, b, t, 0, 0, width);
  }

  // Bytes that all have their high bit set are no number.
  lemma {:induction false} NeverEnds(a: seq<Byte>, n: nat, width: nat)
    requires width > 0 && forall i | 0 <= i < |a| :: a[i] >= 128
    ensures ParseVarInt(a, n, width) == None
  {
    if a != [] {
      var m := (n * 128 + a[0] % 128) % width;
      Idempotent(n * 128 + a[0] % 128, width);
      Idempotent(m + 1, width);
      NeverEnds(a[1..], (m + 1) % width, width);
    }
  }

  // ---------------------------------------------------------------- amounts

  // The code of a number of up to nine zeros at its end: without them, n and a last digit d make
  // 1 + 10 * (9 * n + d - 1) plus the number of zeros; with nine, m makes 1 + 10 * (m - 1) + 9.
  lemma AmountCode(n: nat, d: nat, e: nat)
    requires 1 <= d <= 9 && e < 9
    ensures (10 * n + d) * Pow(10, e) > 0
    ensures Compressed((10 * n + d) * Pow(10, e)) == 1 + 10 * (9 * n + d - 1) + e
  {
    hide Pow, Strip;
    StripUndoes(10 * n + d, e, 0);
  }

  lemma BigAmountCode(m: nat)
    requires m > 0
    ensures Compressed(m * 1_000_000_000) == 1 + 10 * (m - 1) + 9
  {
    NinthPower();
    hide Pow, Strip;
    StripUndoes(m, 9, 0);
  }

  lemma NinthPower()
    ensures Pow(10, 9) == 1_000_000_000
  {
    assert Pow(10, 3) == 1000;
    hide Pow;
    PowAdd(10, 3, 3);
    PowAdd(10, 6, 3);
  }

  // The pairs of the unit tests: nothing, one, a cent, a coin, fifty, twenty-one millions.
  lemma KnownAmounts()
    ensures Compressed(0) == 0 && Compressed(1) == 1 && Compressed(1_000_000) == 7 && Compressed(100_000_000) == 9
    ensures Compressed(5_000_000_000) == 0x32 && Compressed(2_100_000_000_000_000) == 0x140_6f40
  {
    SmallTens();
    hide Pow, Strip;
    AmountCode(0, 1, 0);
    AmountCode(0, 1, 6);
    AmountCode(0, 1, 8);
    BigAmountCode(5);
    BigAmountCode(2_100_000);
  }

  lemma SmallTens()
    ensures Pow(10, 0) == 1 && Pow(10, 6) == 1_000_000 && Pow(10, 8) == 100_000_000
  {
    assert Pow(10, 2) == 100;
    hide Pow;
    PowAdd(10, 2, 2);
    PowAdd(10, 4, 2);
    PowAdd(10, 6, 2);
    assert Pow(10, 0) == 1 by { ZeroTens(); }
  }

  lemma ZeroTens()
    ensures Pow(10, 0) == 1
  {
  }

  // ---------------------------------------------------------------- scripts

  // Pay to a key hash and to a script hash, of twenty bytes: a tag and the hash.
  lemma HashScripts(curve: Curve, h: seq<Byte>)
    requires |h| == 20
    ensures ScriptBytes(curve, [0x76, 0xa9, 20] + h + [0x88, 0xac]) == [0] + h
    ensures ScriptBytes(curve, [0xa9, 20] + h + [0x87]) == [1] + h
  {
    var k, s := [0x76, 0xa9, 20] + h + [0x88, 0xac], [0xa9, 20] + h + [0x87];
    assert k[3..23] == h && s[2..22] == h;
  }

  // Pay to a key: of a short one the parity and the coordinate, of a long and fully valid one
  // the parity of its second coordinate and the first.
  lemma KeyScripts(curve: Curve, parity: Byte, x: seq<Byte>, y: seq<Byte>)
    requires (parity == 2 || parity == 3) && |x| == 32 && |y| == 32
    ensures ScriptBytes(curve, [33, parity] + x + [0xac]) == [parity] + x
    ensures curve.isFullyValid([4] + x + y) ==> ScriptBytes(curve, [65, 4] + x + y + [0xac]) == [4 + y[31] % 2] + x
  {
    var s, l := [33, parity] + x + [0xac], [65, 4] + x + y + [0xac];
    assert s[2..34] == x && l[2..34] == x && l[1..66] == [4] + x + y && l[65] == y[31];
  }

  // Every other script is written as it is, after its length and six, in 32 bits.
  lemma OtherScripts(curve: Curve, s: seq<Byte>)
    requires !(|s| == 25 && s[..3] == [0x76, 0xa9, 20] && s[23..] == [0x88, 0xac])
    requires !(|s| == 23 && s[..2] == [0xa9, 20] && s[22] == 0x87)
    requires !(|s| == 35 && (s[..2] == [33, 2] || s[..2] == [33, 3]) && s[34] == 0xac)
    requires !(|s| == 67 && s[..2] == [65, 4] && s[66] == 0xac && curve.isFullyValid(s[1..66]))
    ensures ScriptBytes(curve, s) == VarInt((|s| + 6) % 0x1_0000_0000) + s
  {
    hide VarInt;
    FormsAre(curve, s);
  }

  lemma FormsAre(curve: Curve, s: seq<Byte>)
    ensures IsToKeyID(s) <==> |s| == 25 && s[..3] == [0x76, 0xa9, 20] && s[23..] == [0x88, 0xac]
    ensures IsToScriptID(s) <==> |s| == 23 && s[..2] == [0xa9, 20] && s[22] == 0x87
    ensures IsToShortKey(s) <==> |s| == 35 && (s[..2] == [33, 2] || s[..2] == [33, 3]) && s[34] == 0xac
    ensures IsToLongKey(curve, s) <==> |s| == 67 && s[..2] == [65, 4] && s[66] == 0xac && curve.isFullyValid(s[1..66])
  {
  }

  // Reading what follows the tags 0 to 3, whatever it is, and 4 and 5, where the curve decides: a
  // point that is none leaves the script as it was.
  lemma TagsAreRead(curve: Curve, tag: Byte, d: seq<Byte>, t: seq<Byte>, before: seq<Byte>)
    requires tag <= 5 && |d| == if tag <= 1 then 20 else 32
    ensures ParseScript(curve, [tag] + (d + t), before) ==
      Some((if tag == 0 then [0x76, 0xa9, 20] + d + [0x88, 0xac]
            else if tag == 1 then [0xa9, 20] + d + [0x87]
            else if tag <= 3 then [33, tag] + d + [0xac]
            else if curve.decompress([tag - 2] + d).Some? then [65] + curve.decompress([tag - 2] + d).value + [0xac]
            else before, t))
  {
    hide ParseVarInt;
    ParseTag(tag, d + t);
    assert (d + t)[..|d|] == d && (d + t)[|d|..] == t;
  }
}

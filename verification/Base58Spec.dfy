/** Base58 as a mapping between byte strings and text, and its round trips. */
module Base58Spec {
  import opened Numbers
  import opened Options
  import opened Radix

  const UPPER: string := "123456789ABCDEFGHJKLMNPQRSTUVWXYZ"
  const LOWER: string := "abcdefghijkmnopqrstuvwxyz"
  const ALPHABET: string := UPPER + LOWER

  // The position of a letter from i on, as strchr finds it; 58 if there is none.
  function IndexFrom(c: char, i: nat): (k: nat)
    requires i <= |ALPHABET|
    ensures i <= k <= |ALPHABET|
    ensures k < |ALPHABET| ==> ALPHABET[k] == c
    ensures forall j | i <= j < k :: ALPHABET[j] != c
    decreases |ALPHABET| - i
  {
    if i == |ALPHABET| || ALPHABET[i] == c then i else IndexFrom(c, i + 1)
  }

  function Index(c: char): nat {
    IndexFrom(c, 0)
  }

  predicate IsLetter(c: char) {
    Index(c) < 58
  }

  lemma UpperAscends()
    ensures |UPPER| == 33 && UPPER[0] == '1' && UPPER[32] == 'Z'
    ensures forall i | 0 <= i < 32 :: UPPER[i] < UPPER[i + 1]
  {
  }

  lemma LowerAscends()
    ensures |LOWER| == 25 && LOWER[0] == 'a'
    ensures forall i | 0 <= i < 24 :: LOWER[i] < LOWER[i + 1]
  {
  }

  lemma AlphabetAscends()
    ensures |ALPHABET| == 58
    ensures forall i | 0 <= i < 57 :: ALPHABET[i] < ALPHABET[i + 1]
    ensures ALPHABET[0] == '1'
  {
    UpperAscends();
    LowerAscends();
    hide UPPER, LOWER;
    forall i | 0 <= i < 57 ensures ALPHABET[i] < ALPHABET[i + 1] {
      if i < 32 {
        assert UPPER[i] < UPPER[i + 1];
      } else if i > 32 {
        assert LOWER[i - 33] < LOWER[i - 33 + 1];
      }
    }
  }

  // The letters ascend, so no letter occurs twice.
  lemma {:induction false} AlphabetOrdered(i: nat, j: nat)
    requires i < j < 58
    ensures |ALPHABET| == 58 && ALPHABET[i] < ALPHABET[j]
    decreases j
  {
    AlphabetAscends();
    hide ALPHABET, UPPER, LOWER;
    if i + 1 < j {
      AlphabetOrdered(i, j - 1);
      assert ALPHABET[j - 1] < ALPHABET[j - 1 + 1];
    }
  }

  lemma IndexOfLetter(d: nat)
    requires d < 58
    ensures Index(ALPHABET[d]) == d
  {
    var k := Index(ALPHABET[d]);
    if k < d {
      AlphabetOrdered(k, d);
    }
  }

  // ---------------------------------------------------------------- the encoding

  function LettersOf(ds: seq<nat>): (s: string)
    requires AreDigits(ds, 58)
    ensures |s| == |ds|
  {
    seq(|ds|, i requires 0 <= i < |ds| => ALPHABET[ds[i]])
  }

  function Indices(s: string): (ds: seq<nat>)
    ensures |ds| == |s|
  {
    seq(|s|, i requires 0 <= i < |s| => Index(s[i]))
  }

  // How often x occurs at the start.
  function Leading<T(==)>(s: seq<T>, x: T): (k: nat)
    ensures k <= |s|
    ensures forall i | 0 <= i < k :: s[i] == x
    ensures k < |s| ==> s[k] != x
  {
    if s == [] || s[0] != x then 0 else 1 + Leading(s[1..], x)
  }

  function Repeat<T>(n: nat, x: T): (s: seq<T>)
    ensures |s| == n && forall i | 0 <= i < n :: s[i] == x
  {
    seq(n, _ => x)
  }

  // Zero bytes become ones; the rest is the number they form, in base 58.
  function Encode(v: seq<nat>): string
    requires AreDigits(v, 256)
  {
    DigitsAreDigits(Number(v, 256), 58);
    Repeat(Leading(v, 0), '1') + LettersOf(Digits(Number(v, 256), 58))
  }

  // ---------------------------------------------------------------- the decoding

  // isspace in the C locale
  predicate IsSpace(c: char) {
    c == ' ' || '\t' <= c <= '\r'
  }

  // A C string ends at its first NUL.
  function CString(s: string): string {
    if s == [] || s[0] == '\0' then [] else [s[0]] + CString(s[1..])
  }

  function TrimLeft(s: string): string {
    if s != [] && IsSpace(s[0]) then TrimLeft(s[1..]) else s
  }

  function TrimRight(s: string): string {
    if s != [] && IsSpace(s[|s| - 1]) then TrimRight(s[..|s| - 1]) else s
  }

  predicate AreLetters(s: string) {
    forall i | 0 <= i < |s| :: IsLetter(s[i])
  }

  function DecodeText(t: string): seq<nat>
    requires AreLetters(t)
  {
    Repeat(Leading(t, '1'), 0) + Digits(Number(Indices(t), 58), 256)
  }

  function Decode(s: string): Option<seq<nat>> {
    var t := TrimRight(TrimLeft(CString(s)));
    if AreLetters(t) then Some(DecodeText(t)) else None
  }

  // ---------------------------------------------------------------- round trips

  lemma LetterIsPlain(c: char)
    requires IsLetter(c)
    ensures !IsSpace(c) && c != '\0'
    ensures Index(c) == 0 <==> c == '1'
  {
    AlphabetAscends();
    if Index(c) > 0 {
      AlphabetOrdered(0, Index(c));
    }
  }

  lemma {:induction false} LettersAreCString(s: string)
    requires AreLetters(s)
    ensures CString(s) == s
  {
    hide ALPHABET, UPPER, LOWER, IndexFrom;
    if s != [] {
      LetterIsPlain(s[0]);
      assert forall i | 0 <= i < |s| - 1 :: s[1..][i] == s[i + 1];
      LettersAreCString(s[1..]);
    }
  }

  lemma LettersAreTrim(s: string)
    requires AreLetters(s)
    ensures TrimRight(TrimLeft(s)) == s
  {
    hide ALPHABET, UPPER, LOWER, IndexFrom;
    if s != [] {
      LetterIsPlain(s[0]);
      LetterIsPlain(s[|s| - 1]);
    }
  }

  lemma LeadingOf<T>(n: nat, x: T, rest: seq<T>)
    requires rest != [] ==> rest[0] != x
    ensures Leading(Repeat(n, x) + rest, x) == n
  {
    var s := Repeat(n, x) + rest;
    assert rest != [] ==> s[n] == rest[0];
  }

  // The zeros in front do not change the number, and what follows them is its digits.
  lemma DigitsAfterZeros(s: seq<nat>, base: nat)
    requires base > 1 && AreDigits(s, base)
    ensures Digits(Number(s, base), base) == s[Leading(s, 0)..]
  {
    var k := Leading(s, 0);
    NumberSplit(s, base, k);
    NumberOfZeros(s[..k], base);
    assert 0 * Pow(base, |s| - k) == 0;
    DigitsOfNumber(s[k..], base);
  }

  lemma NumberAfterZeros(n: nat, s: seq<nat>, base: nat)
    requires base > 1
    ensures Number(Repeat(n, 0) + s, base) == Number(s, base)
  {
    var t := Repeat(n, 0) + s;
    NumberSplit(t, base, n);
    assert t[..n] == Repeat(n, 0) && t[n..] == s;
    NumberOfZeros(Repeat(n, 0), base);
    assert 0 * Pow(base, |s|) == 0;
  }

  lemma EncodeIsLetters(v: seq<nat>)
    requires AreDigits(v, 256)
    ensures AreLetters(Encode(v))
    ensures Indices(Encode(v)) == Repeat(Leading(v, 0), 0) + Digits(Number(v, 256), 58)
    ensures Leading(Encode(v), '1') == Leading(v, 0)
  {
    hide ALPHABET, UPPER, LOWER, IndexFrom, Number, Digits, Leading;
    var z, ds := Leading(v, 0), Digits(Number(v, 256), 58);
    DigitsAreDigits(Number(v, 256), 58);
    AlphabetAscends();
    var s := Encode(v);
    IndexOfLetter(0);
    forall i | 0 <= i < |s|
      ensures Index(s[i]) == (Repeat(z, 0) + ds)[i]
    {
      IndexOfLetter(if i < z then 0 else ds[i - z]);
    }
    if ds != [] {
      IndexOfLetter(ds[0]);
    }
    LeadingOf(z, '1', LettersOf(ds));
  }

  // Decoding an encoding gives the bytes back.
  lemma DecodeEncode(v: seq<nat>)
    requires AreDigits(v, 256)
    ensures Decode(Encode(v)) == Some(v)
  {
    hide Encode, Index, Number, Digits, Leading, CString, TrimLeft, TrimRight;
    var s, n := Encode(v), Number(v, 256);
    EncodeIsLetters(v);
    LettersAreCString(s);
    LettersAreTrim(s);
    NumberAfterZeros(Leading(v, 0), Digits(n, 58), 58);
    NumberOfDigits(n, 58);
    DigitsAfterZeros(v, 256);
    assert v == Repeat(Leading(v, 0), 0) + v[Leading(v, 0)..];
  }

  // Encoding what was decoded gives the text back, without the spaces around it.
  lemma EncodeDecode(s: string)
    requires Decode(s).Some?
    ensures AreDigits(Decode(s).value, 256)
    ensures Encode(Decode(s).value) == TrimRight(TrimLeft(CString(s)))
  {
    hide Number, Digits, CString, TrimLeft, TrimRight, ALPHABET, IndexFrom;
    var t := TrimRight(TrimLeft(CString(s)));
    var v, z, n := Decode(s).value, Leading(t, '1'), Number(Indices(t), 58);
    DigitsAreDigits(n, 256);
    LeadingOf(z, 0, Digits(n, 256));
    NumberAfterZeros(z, Digits(n, 256), 256);
    NumberOfDigits(n, 256);
    LeadingIndices(t);
    DigitsAfterZeros(Indices(t), 58);
    assert Digits(n, 58) == Indices(t)[z..];
    LettersOfIndices(t, z);
    assert t == Repeat(z, '1') + t[z..];
  }

  lemma LettersOfIndices(t: string, z: nat)
    requires AreLetters(t) && z <= |t|
    ensures AreDigits(Indices(t)[z..], 58) && LettersOf(Indices(t)[z..]) == t[z..]
  {
    hide ALPHABET, UPPER, LOWER;
    AlphabetAscends();
    forall i | 0 <= i < |t| - z
      ensures Indices(t)[z..][i] < 58 && ALPHABET[Indices(t)[z..][i]] == t[z..][i]
    {
      assert IsLetter(t[z + i]);
    }
  }

  lemma LeadingIndices(t: string)
    requires AreLetters(t)
    ensures AreDigits(Indices(t), 58) && Leading(Indices(t), 0) == Leading(t, '1')
  {
    var k, j := Leading(t, '1'), Leading(Indices(t), 0);
    forall i | 0 <= i < |t|
      ensures Indices(t)[i] == 0 <==> t[i] == '1'
    {
      LetterIsPlain(t[i]);
    }
  }

  // ---------------------------------------------------------------- trimming by position

  // A C string is the text up to its first NUL or its end.
  lemma {:induction false} CStringIsPrefix(s: string)
    ensures |CString(s)| <= |s| && CString(s) == s[..|CString(s)|]
    ensures |CString(s)| < |s| ==> s[|CString(s)|] == '\0'
    ensures forall i | 0 <= i < |CString(s)| :: s[i] != '\0'
  {
    if s != [] && s[0] != '\0' {
      CStringIsPrefix(s[1..]);
      var c := CString(s[1..]);
      assert CString(s) == [s[0]] + c;
      forall i | 0 <= i < |CString(s)|
        ensures s[i] != '\0' && CString(s)[i] == s[i]
      {
        if i > 0 { assert s[1..][i - 1] == s[i]; }
      }
    }
  }

  lemma {:induction false} TrimLeftIs(s: string, k: nat)
    requires k <= |s| && (forall i | 0 <= i < k :: IsSpace(s[i])) && (k < |s| ==> !IsSpace(s[k]))
    ensures TrimLeft(s) == s[k..]
  {
    if k > 0 {
      assert forall i | 0 <= i < k - 1 :: s[1..][i] == s[i + 1];
      TrimLeftIs(s[1..], k - 1);
    }
  }

  lemma {:induction false} TrimRightIs(s: string, k: nat)
    requires k <= |s| && (forall i | k <= i < |s| :: IsSpace(s[i])) && (k > 0 ==> !IsSpace(s[k - 1]))
    ensures TrimRight(s) == s[..k]
    decreases |s|
  {
    if k < |s| {
      TrimRightIs(s[..|s| - 1], k);
      assert s[..|s| - 1][..k] == s[..k];
    }
  }

  lemma {:induction false} TrimRightKeeps(s: string, k: nat)
    requires k < |s| && !IsSpace(s[k])
    ensures k < |TrimRight(s)| <= |s| && TrimRight(s) == s[..|TrimRight(s)|]
    decreases |s|
  {
    if IsSpace(s[|s| - 1]) {
      TrimRightKeeps(s[..|s| - 1], k);
    }
  }

  // Text with something other than a letter, up to a character that is no space, is refused.
  lemma Refused(s: string, p: nat, j: nat, k: nat)
    requires p <= |CString(s)| && TrimLeft(CString(s)) == CString(s)[p..]
    requires p <= j <= k < |CString(s)| && !IsLetter(CString(s)[j]) && !IsSpace(CString(s)[k])
    ensures Decode(s) == None
  {
    var u := CString(s)[p..];
    TrimRightKeeps(u, k - p);
    assert TrimRight(u)[j - p] == u[j - p];
  }
}

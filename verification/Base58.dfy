/** EncodeBase58 and DecodeBase58 on their fixed-size digit buffers. */
module Base58 {
  import opened Numbers
  import opened Options
  import opened Radix
  import opened Base58Spec
  import opened Base58Sizes

  // The inner loop of both: buffer = buffer * factor + digit, from the last digit on, over at
  // least `length` digits and for as long as there is a carry.
  method MultiplyAdd(b: array<nat>, base: nat, factor: nat, digit: nat, length: nat) returns (carry: nat, i: nat)
    requires base > 1 && AreDigits(b[..], base) && length <= b.Length
    requires forall k | 0 <= k < b.Length - length :: b[k] == 0
    modifies b
    ensures AreDigits(b[..], base) && i <= b.Length
    ensures forall k | 0 <= k < b.Length - i :: b[k] == 0
    ensures Number(b[..], base) + carry * Pow(base, b.Length) == Number(old(b[..]), base) * factor + digit
  {
    hide Number, Pow;
    ghost var s := b[..];
    var n := b.Length;
    carry := digit;
    i := 0;
    StartsEmpty(s, base, carry);
    assert Number(s[n..], base) * factor == 0 by { StartsEmpty(s, base, carry); }
    while (carry != 0 || i < length) && i < n
      invariant i <= n
      invariant AreDigits(b[..], base)
      invariant b[..n - i] == s[..n - i]
      invariant Number(b[n - i..], base) + carry * Pow(base, i) == Number(s[n - i..], base) * factor + digit
    {
      var p := n - 1 - i;
      assert b[p] == s[p];
      Positive(factor, b[p]);
      var sum := carry + factor * b[p];
      ghost var tail := b[p + 1..];
      DivMod(sum, base);
      b[p] := sum % base;
      assert b[p + 1..] == tail;
      DigitStep(b[..], s, base, factor, digit, carry, p);
      carry := sum / base;
      i := i + 1;
    }
    StopsBeforeZeros(b[..], s, base, n - i);
    Settles(Pow(base, i), Pow(base, n), carry, Number(b[..], base), Number(s[n - i..], base), Number(s, base), factor, digit);
  }

  lemma StartsEmpty(s: seq<nat>, base: nat, carry: nat)
    ensures Number(s[|s|..], base) == 0 && carry * Pow(base, 0) == carry
  {
  }

  lemma DigitStep(t: seq<nat>, s: seq<nat>, base: nat, factor: nat, digit: nat, carry: nat, p: nat)
    requires base > 1 && |t| == |s| && p < |s|
    requires Number(t[p + 1..], base) + carry * Pow(base, |s| - 1 - p) == Number(s[p + 1..], base) * factor + digit
    requires t[p] == (carry + factor * s[p]) % base && (carry + factor * s[p]) / base >= 0
    ensures Number(t[p..], base) + ((carry + factor * s[p]) / base) * Pow(base, |s| - p)
         == Number(s[p..], base) * factor + digit
  {
    var w := Pow(base, |s| - 1 - p);
    assert Pow(base, |s| - p) == base * w;
    hide Number, Pow;
    NumberCons(t[p..], base);
    NumberCons(s[p..], base);
    assert t[p..][1..] == t[p + 1..] && s[p..][1..] == s[p + 1..];
    var sum := carry + factor * s[p];
    DivMod(sum, base);
    Associates(sum / base, base, w);
    Distributes(w, (sum / base) * base, sum % base);
    Distributes(w, carry, factor * s[p]);
    Distributes(factor, s[p] * w, Number(s[p + 1..], base));
    Associates(factor, s[p], w);
    Commutes(factor, s[p] * w);
  }

  // The loop stops before n untouched zeros, or at the front of the buffer.
  lemma StopsBeforeZeros(t: seq<nat>, s: seq<nat>, base: nat, n: nat)
    requires base > 1 && n <= |s| == |t| && t[..n] == s[..n]
    requires forall k | 0 <= k < n :: s[k] == 0
    ensures Number(t, base) == Number(t[n..], base) && Number(s, base) == Number(s[n..], base)
    ensures forall k | 0 <= k < n :: t[k] == 0
  {
    hide Number, Pow;
    Untouched(t, s, n);
    AfterZeros(s, base, n);
    AfterZeros(t, base, n);
  }

  lemma Settles(a: nat, b: nat, carry: nat, t: nat, u: nat, s: nat, factor: nat, digit: nat)
    requires (carry == 0 || a == b) && u == s && t + carry * a == u * factor + digit
    ensures t + carry * b == s * factor + digit
  {
    if carry == 0 {
      TimesZero(a, b, carry);
    }
  }

  lemma Untouched(t: seq<nat>, s: seq<nat>, n: nat)
    requires n <= |t| && n <= |s| && t[..n] == s[..n] && forall k | 0 <= k < n :: s[k] == 0
    ensures forall k | 0 <= k < n :: t[k] == 0
  {
    assert forall k | 0 <= k < n :: t[k] == t[..n][k];
  }

  lemma TimesZero(a: nat, b: nat, carry: nat)
    requires carry == 0
    ensures carry * a == 0 == carry * b
  {
  }

  lemma AfterZeros(s: seq<nat>, base: nat, k: nat)
    requires base > 1 && k <= |s| && forall j | 0 <= j < k :: s[j] == 0
    ensures Number(s, base) == Number(s[k..], base)
  {
    hide Number, Pow;
    NumberSplit(s, base, k);
    NumberOfZeros(s[..k], base);
    assert 0 * Pow(base, |s| - k) == 0;
  }

  // A number below base^n leaves no carry out of n digits.
  lemma NoCarry(t: seq<nat>, base: nat, carry: nat, w: nat)
    requires base > 1 && Number(t, base) + carry * Pow(base, |t|) == w < Pow(base, |t|)
    ensures carry == 0
  {
    hide Number, Pow;
    if carry > 0 {
      TimesGrows(Pow(base, |t|), 1, carry);
    }
  }

  // What a prefix of the input stands for fits in the buffer.
  lemma PrefixFits(s: seq<nat>, base: nat, k: nat, limit: nat)
    requires base > 0 && AreDigits(s, base) && k < |s| && Pow(base, |s|) <= limit
    ensures Number(s[..k + 1], base) < limit
    ensures Number(s[..k + 1], base) == Number(s[..k], base) * base + s[k]
  {
    assert s[..k + 1][..k] == s[..k];
    hide Number, Pow;
    NumberBound(s[..k + 1], base);
    PowGrows(base, k + 1, |s|);
  }

  method EncodeBase58(v: seq<nat>) returns (str: string)
    requires AreDigits(v, 256)
    ensures str == Encode(v)
  {
    hide Number, Pow, Digits, ALPHABET, Leading;
    var zeroes := SkipZeroes(v);
    var b58, length := ToBase58(v[zeroes..]);
    AfterZeros(v, 256, zeroes);
    var it := SkipZeroesFrom(b58, b58.Length - length);
    DigitsAfterZeros(b58[..], 58);
    var letters := Translate(b58, it);
    str := Repeat(zeroes, '1') + letters;
  }

  // "Process the bytes": the buffer holds their number, in its last `length` digits.
  method ToBase58(v: seq<nat>) returns (b58: array<nat>, length: nat)
    requires AreDigits(v, 256)
    ensures fresh(b58) && length <= b58.Length && AreDigits(b58[..], 58)
    ensures Number(b58[..], 58) == Number(v, 256)
    ensures forall k | 0 <= k < b58.Length - length :: b58[k] == 0
  {
    hide Number, Pow;
    var size := |v| * 138 / 100 + 1;
    EncodeFits(|v|);
    b58 := new nat[size](_ => 0);
    length := 0;
    NumberOfZeros(b58[..], 58);
    StartsEmpty(v[..0], 256, 0);
    var p := 0;
    while p < |v|
      invariant 0 <= p <= |v| && length <= size
      invariant AreDigits(b58[..], 58)
      invariant forall k | 0 <= k < size - length :: b58[k] == 0
      invariant Number(b58[..], 58) == Number(v[..p], 256)
    {
      PrefixFits(v, 256, p, Pow(58, size));
      var carry, i := MultiplyAdd(b58, 58, 256, v[p], length);
      NoCarry(b58[..], 58, carry, Number(v[..p + 1], 256));
      assert carry == 0;
      length := i;
      p := p + 1;
    }
    assert v[..p] == v;
  }

  // "Translate the result into a string."
  method Translate(b58: array<nat>, start: nat) returns (str: string)
    requires start <= b58.Length && AreDigits(b58[..], 58)
    ensures AreDigits(b58[start..], 58) && str == LettersOf(b58[start..])
  {
    hide ALPHABET;
    AlphabetAscends();
    str := "";
    var it := start;
    while it < b58.Length
      invariant start <= it <= b58.Length
      invariant AreDigits(b58[start..it], 58)
      invariant str == LettersOf(b58[start..it])
    {
      str := str + [ALPHABET[b58[it]]];
      it := it + 1;
    }
    assert b58[start..it] == b58[start..];
  }

  // The leading zeros of a byte string.
  method SkipZeroes(v: seq<nat>) returns (zeroes: nat)
    ensures zeroes == Leading(v, 0)
  {
    zeroes := 0;
    while zeroes < |v| && v[zeroes] == 0
      invariant zeroes <= |v| && forall k | 0 <= k < zeroes :: v[k] == 0
    {
      zeroes := zeroes + 1;
    }
    LeadingIs(v, 0, zeroes);
  }

  // The leading zeros of a buffer, looked for from a place before which there is nothing else.
  method SkipZeroesFrom(b: array<nat>, start: nat) returns (it: nat)
    requires start <= b.Length && forall k | 0 <= k < start :: b[k] == 0
    ensures it == Leading(b[..], 0)
  {
    it := start;
    while it < b.Length && b[it] == 0
      invariant start <= it <= b.Length && forall k | 0 <= k < it :: b[k] == 0
    {
      it := it + 1;
    }
    LeadingIs(b[..], 0, it);
  }

  lemma LeadingIs<T>(s: seq<T>, x: T, k: nat)
    requires k <= |s| && (forall i | 0 <= i < k :: s[i] == x) && (k < |s| ==> s[k] != x)
    ensures Leading(s, x) == k
  {
  }

  // ---------------------------------------------------------------- decoding

  // *(psz + p): a C string is followed by its NUL.
  function CharAt(s: string, p: nat): char {
    if p < |s| then s[p] else '\0'
  }

  lemma CharAtIs(s: string, p: nat)
    requires p <= |CString(s)|
    ensures CharAt(s, p) == if p < |CString(s)| then CString(s)[p] else '\0'
    ensures CharAt(s, p) == '\0' <==> p == |CString(s)|
  {
    CStringIsPrefix(s);
  }

  method DecodeBase58(s: string) returns (vch: Option<seq<nat>>)
    ensures vch == Decode(s)
  {
    hide Number, Pow, Digits, ALPHABET, Leading, IndexFrom, CharAt, CString, Decode, TrimLeft, TrimRight;
    ghost var text := CString(s);
    var psz := SkipSpaces(s, 0);
    ghost var start := psz;
    TrimLeftIs(text, start);
    var zeroes := SkipOnes(s, psz);
    psz := psz + zeroes;
    var b256, length, ok, p := FromBase58(s, psz);
    if !ok {
      Refused(s, start, p, p);
      return None;
    }
    psz := SkipSpaces(s, p);
    CharAtIs(s, psz);
    if CharAt(s, psz) != '\0' {
      SpaceIsNoLetter(text[p]);
      Refused(s, start, p, psz);
      return None;
    }
    Accepted(s, start, zeroes, p);
    var it := SkipZeroesFrom(b256, b256.Length - length);
    DigitsAfterZeros(b256[..], 256);
    vch := Some(Repeat(zeroes, 0) + b256[it..]);
  }

  lemma SpaceIsNoLetter(c: char)
    requires IsSpace(c)
    ensures !IsLetter(c)
  {
    if IsLetter(c) {
      LetterIsPlain(c);
    }
  }

  // Ones, other letters, then spaces to the end: what the decoding of the text is.
  lemma Accepted(s: string, start: nat, zeroes: nat, p: nat)
    requires start + zeroes <= p <= |CString(s)|
    requires TrimLeft(CString(s)) == CString(s)[start..]
    requires forall i | start <= i < start + zeroes :: CString(s)[i] == '1'
    requires start + zeroes < |CString(s)| ==> CString(s)[start + zeroes] != '1'
    requires AreLetters(CString(s)[start + zeroes..p])
    requires forall i | p <= i < |CString(s)| :: IsSpace(CString(s)[i])
    ensures Decode(s)
         == Some(Repeat(zeroes, 0) + Digits(Number(Indices(CString(s)[start + zeroes..p]), 58), 256))
  {
    hide Number, Pow, Digits, ALPHABET, Leading, IndexFrom, CString, TrimLeft, TrimRight;
    var u := CString(s)[start..];
    var t, rest := u[..p - start], CString(s)[start + zeroes..p];
    OneIsLetter();
    assert t == Repeat(zeroes, '1') + rest;
    assert AreLetters(t);
    if p > start {
      assert IsLetter(t[p - start - 1]);
      LetterIsPlain(u[p - start - 1]);
    }
    TrimRightIs(u, p - start);
    LeadingOf(zeroes, '1', rest);
    assert Indices(t) == Repeat(zeroes, 0) + Indices(rest);
    NumberAfterZeros(zeroes, Indices(rest), 58);
  }

  lemma OneIsLetter()
    ensures IsLetter('1') && Index('1') == 0
  {
    AlphabetAscends();
    IndexOfLetter(0);
  }

  method SkipSpaces(s: string, start: nat) returns (p: nat)
    requires start <= |CString(s)|
    ensures start <= p <= |CString(s)|
    ensures forall i | start <= i < p :: IsSpace(CString(s)[i])
    ensures p < |CString(s)| ==> !IsSpace(CString(s)[p])
  {
    hide CharAt, CString;
    p := start;
    CharAtIs(s, p);
    while CharAt(s, p) != '\0' && IsSpace(CharAt(s, p))
      invariant start <= p <= |CString(s)|
      invariant CharAt(s, p) == if p < |CString(s)| then CString(s)[p] else '\0'
      invariant CharAt(s, p) == '\0' <==> p == |CString(s)|
      invariant forall i | start <= i < p :: IsSpace(CString(s)[i])
      decreases |CString(s)| - p
    {
      p := p + 1;
      CharAtIs(s, p);
    }
  }

  method SkipOnes(s: string, start: nat) returns (zeroes: nat)
    requires start <= |CString(s)|
    ensures start + zeroes <= |CString(s)|
    ensures forall i | start <= i < start + zeroes :: CString(s)[i] == '1'
    ensures start + zeroes < |CString(s)| ==> CString(s)[start + zeroes] != '1'
  {
    hide CharAt, CString;
    zeroes := 0;
    CharAtIs(s, start);
    while CharAt(s, start + zeroes) == '1'
      invariant start + zeroes <= |CString(s)|
      invariant CharAt(s, start + zeroes) == if start + zeroes < |CString(s)| then CString(s)[start + zeroes] else '\0'
      invariant forall i | start <= i < start + zeroes :: CString(s)[i] == '1'
      decreases |CString(s)| - zeroes
    {
      zeroes := zeroes + 1;
      CharAtIs(s, start + zeroes);
    }
  }

  method StrLen(s: string, start: nat) returns (n: nat)
    requires start <= |CString(s)|
    ensures n == |CString(s)| - start
  {
    hide CharAt, CString;
    n := 0;
    CharAtIs(s, start);
    while CharAt(s, start + n) != '\0'
      invariant start + n <= |CString(s)|
      invariant CharAt(s, start + n) == '\0' <==> start + n == |CString(s)|
      decreases |CString(s)| - n
    {
      n := n + 1;
      CharAtIs(s, start + n);
    }
  }

  // "Process the characters", up to a space or the end; not ok at one that is no letter.
  method FromBase58(s: string, start: nat) returns (b256: array<nat>, length: nat, ok: bool, p: nat)
    requires start <= |CString(s)|
    ensures fresh(b256) && length <= b256.Length && start <= p <= |CString(s)|
    ensures AreLetters(CString(s)[start..p])
    ensures !ok ==> p < |CString(s)| && !IsLetter(CString(s)[p]) && !IsSpace(CString(s)[p])
    ensures ok && p < |CString(s)| ==> IsSpace(CString(s)[p])
    ensures AreDigits(b256[..], 256) && Number(b256[..], 256) == Number(Indices(CString(s)[start..p]), 58)
    ensures forall k | 0 <= k < b256.Length - length :: b256[k] == 0
  {
    hide Number, Pow, ALPHABET, IndexFrom, CharAt, CString;
    var n := StrLen(s, start);
    var size := n * 733 / 1000 + 1;
    DecodeFits(n);
    b256 := new nat[size](_ => 0);
    length := 0;
    ok := true;
    p := start;
    NumberOfZeros(b256[..], 256);
    StartsEmpty(Indices(CString(s)[start..start]), 58, 0);
    CharAtIs(s, p);
    while CharAt(s, p) != '\0' && !IsSpace(CharAt(s, p))
      invariant start <= p <= |CString(s)| && length <= size
      invariant CharAt(s, p) == if p < |CString(s)| then CString(s)[p] else '\0'
      invariant CharAt(s, p) == '\0' <==> p == |CString(s)|
      invariant AreLetters(CString(s)[start..p])
      invariant AreDigits(b256[..], 256)
      invariant forall k | 0 <= k < size - length :: b256[k] == 0
      invariant Number(b256[..], 256) == Number(Indices(CString(s)[start..p]), 58)
      decreases |CString(s)| - p
    {
      var ch := Index(CharAt(s, p));
      if ch >= 58 {
        ok := false;
        return;
      }
      assert CString(s)[start..p + 1] == CString(s)[start..p] + [CString(s)[p]];
      assert IsLetter(CString(s)[p]);
      LetterFits(CString(s)[start..p + 1], n, Pow(256, size));
      assert CString(s)[start..p + 1][..p - start] == CString(s)[start..p];
      var carry, i := MultiplyAdd(b256, 256, 58, ch, length);
      NoCarry(b256[..], 256, carry, Number(Indices(CString(s)[start..p + 1]), 58));
      assert carry == 0;
      length := i;
      p := p + 1;
      CharAtIs(s, p);
    }
  }

  lemma LetterFits(t: string, n: nat, limit: nat)
    requires t != [] && AreLetters(t) && |t| <= n && Pow(58, n) <= limit
    ensures Number(Indices(t), 58) < limit
    ensures Number(Indices(t), 58) == Number(Indices(t[..|t| - 1]), 58) * 58 + Index(t[|t| - 1])
  {
    hide Number, Pow;
    var ds := Indices(t);
    PowGrows(58, |t|, n);
    PrefixFits(ds, 58, |t| - 1, limit);
    assert ds[..|t|] == ds && ds[..|t| - 1] == Indices(t[..|t| - 1]);
  }
}

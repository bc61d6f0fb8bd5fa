/** The Base58 letters and spaces by their character codes, and the form of an encoding. */
module Base58Laws {
  import opened Numbers
  import opened Radix
  import opened Base58Spec

  // Where a letter should stand; 58 for other characters.
  function Rank(c: char): (k: nat)
    ensures k <= 58
  {
    var n := c as int;
    if '1' <= c <= '9' then n - 49
    else if 'A' <= c <= 'H' then n - 56
    else if 'J' <= c <= 'N' then n - 57
    else if 'P' <= c <= 'Z' then n - 58
    else if 'a' <= c <= 'k' then n - 64
    else if 'm' <= c <= 'z' then n - 65
    else 58
  }

  // The letters are the ASCII digits and letters other than 0, I, O and l, in the order of their codes.
  lemma LettersAre(c: char)
    ensures IsLetter(c) <==>
      ('0' <= c <= '9' || 'A' <= c <= 'Z' || 'a' <= c <= 'z') && c != '0' && c != 'I' && c != 'O' && c != 'l'
    ensures IsLetter(c) ==> Index(c) == Rank(c)
  {
    hide ALPHABET, UPPER, LOWER;
    AlphabetAscends();
    if IsLetter(c) {
      NthLetter(Index(c));
    } else if Rank(c) < 58 {
      NthLetter(Rank(c));
    }
  }

  lemma NthLetter(i: nat)
    requires i < 58
    ensures |ALPHABET| == 58 && Rank(ALPHABET[i]) == i
    ensures forall c: char | Rank(c) == i :: c == ALPHABET[i]
  {
    AlphabetAscends();
    if i < 33 {
      UpperLetter(i);
    } else {
      LowerLetter(i - 33);
    }
    LetterOfRank(i, ALPHABET[i]);
  }

  // No two characters have the same rank.
  lemma LetterOfRank(i: nat, a: char)
    requires i < 58 && a as int ==
      if i < 9 then 49 + i else if i < 17 then 56 + i else if i < 22 then 57 + i else if i < 33 then 58 + i
      else if i < 44 then 64 + i else 65 + i
    ensures Rank(a) == i && forall c: char | Rank(c) == i :: c == a
  {
  }

  lemma UpperLetter(i: nat)
    requires i < 33
    ensures |UPPER| == 33 && UPPER[i] as int == if i < 9 then 49 + i else if i < 17 then 56 + i else if i < 22 then 57 + i else 58 + i
  {
  }

  lemma LowerLetter(i: nat)
    requires i < 25
    ensures |LOWER| == 25 && LOWER[i] as int == if i < 11 then 97 + i else 98 + i
  {
  }

  // The characters that are skipped around a text.
  lemma SpacesAre(c: char)
    ensures IsSpace(c) <==> c as int == 32 || 9 <= c as int <= 13
  {
  }

  // A number is built up from its digits, the last one counting least.
  lemma NumberAppends(s: seq<nat>, d: nat, base: nat)
    ensures Number([], base) == 0 && Number(s + [d], base) == Number(s, base) * base + d
  {
    assert (s + [d])[..|s|] == s;
  }

  // An encoding is a '1' for every zero byte in front, then the digits of the number in base 58
  // as letters, the first of which is not a '1'.
  lemma EncodingIs(v: seq<nat>, z: nat)
    requires AreDigits(v, 256) && z <= |v|
    requires (forall i | 0 <= i < z :: v[i] == 0) && (z < |v| ==> v[z] != 0)
    ensures z <= |Encode(v)| && (forall i | 0 <= i < z :: Encode(v)[i] == '1')
    ensures z < |Encode(v)| ==> Encode(v)[z] != '1'
    ensures AreLetters(Encode(v)) && Number(Indices(Encode(v)), 58) == Number(v, 256)
  {
    hide ALPHABET, UPPER, LOWER, IndexFrom, Encode;
    EncodeIsLetters(v);
    assert Leading(v, 0) == z;
    NumberAfterZeros(z, Digits(Number(v, 256), 58), 58);
    NumberOfDigits(Number(v, 256), 58);
  }
}

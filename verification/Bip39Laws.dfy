/** A mnemonic sentence as one number: in base 2048 it is the number of the data with the
    checksum bits behind. */
module Bip39Laws {
  import opened Numbers
  import opened Options
  import opened Radix
  import opened Bip39Spec
  import opened Bip39Exact

  lemma {:induction false} ValueAppends(a: seq<bool>, b: seq<bool>)
    ensures Value(a + b) == Value(a) * Pow(2, |b|) + Value(b)
  {
    if b == [] {
      assert a + b == a;
      assert Value(a) * Pow(2, 0) == Value(a);
    } else {
      var n := |b| - 1;
      assert (a + b)[..|a| + n] == a + b[..n] && (a + b)[|a| + n] == b[n];
      ValueAppends(a, b[..n]);
      var p := Pow(2, n);
      assert Pow(2, n + 1) == 2 * p;
      assert 2 * (Value(a) * p) == Value(a) * (2 * p) by { Associates(2, Value(a), p); Associates(Value(a), 2, p); }
    }
  }

  lemma NumberAppends(s: seq<nat>, d: nat, base: nat)
    ensures Number(s + [d], base) == Number(s, base) * base + d
  {
    assert (s + [d])[..|s|] == s;
  }

  lemma Widths()
    ensures Pow(2, 8) == 256 && Pow(2, 11) == 2048
  {
    PowersOfTwo();
    assert Pow(2, 3) == 8;
    hide Pow;
    PowAdd(2, 8, 3);
  }

  // The bits of bytes are their number in base 256 ...
  lemma {:induction false} BitsAreNumber(d: seq<Byte>)
    ensures Value(Bits(d)) == Number(d, 256)
  {
    hide Pow, Value, Fixed, Bits;
    Widths();
    if d == [] {
      NothingIsZero();
    } else {
      var n := |d| - 1;
      assert d == d[..n] + [d[n]];
      BitsAreNumber(d[..n]);
      BitsAppend(d[..n], d[n]);
      ValueAppends(Bits(d[..n]), Fixed(d[n], 8));
      ValueOfFixed(d[n], 8);
      NumberAppends(d[..n], d[n], 256);
    }
  }

  lemma NothingIsZero()
    ensures Value(Bits([])) == 0 == Number([], 256)
    ensures Value(Spelled([])) == 0 == Number([], 2048)
  {
  }

  // ... and the bits of words are theirs in base 2048.
  lemma {:induction false} WordsAreNumber(ix: seq<nat>)
    requires AreIndices(ix)
    ensures Value(Spelled(ix)) == Number(ix, 2048)
  {
    hide Pow, Value, Fixed;
    Widths();
    if ix == [] {
      NothingIsZero();
    } else {
      var n := |ix| - 1;
      assert ix == ix[..n] + [ix[n]];
      WordsAreNumber(ix[..n]);
      ValueAppends(Spelled(ix[..n]), Fixed(ix[n], 11));
      ValueOfFixed(ix[n], 11);
      NumberAppends(ix[..n], ix[n], 2048);
    }
  }

  // The words of a sentence, as a number in base 2048: the data and, behind it, one bit of the
  // first byte of the hash for every four bytes.
  lemma SentenceIsNumber(env: Env, d: seq<Byte>)
    requires GoodLength(|d|)
    ensures var ix := Words(AllBits(env, d), |d| * 3 / 4);
      && |ix| == |d| * 3 / 4 && AreIndices(ix)
      && Number(ix, 2048) == Number(d, 256) * Pow(2, |d| / 4) + env.sha256(d) / Pow(2, 8 - |d| / 4)
  {
    hide Pow, Value, Fixed, Bits, Spelled, Number;
    var n, c := |d| * 3 / 4, |d| / 4;
    assert 11 * n == 8 * |d| + c && c <= 8;
    var b, check := AllBits(env, d), Fixed(env.sha256(d), 8);
    BitsAppend(d, env.sha256(d));
    SpelledOfWords(b, n);
    assert b[..11 * n] == Bits(d) + check[..c];
    ValueAppends(Bits(d), check[..c]);
    BitsAreNumber(d);
    TopBits(env.sha256(d), c);
    IndicesOfWords(b, n);
    WordsAreNumber(Words(b, n));
  }

  lemma IndicesOfWords(b: seq<bool>, n: nat)
    requires 11 * n <= |b|
    ensures AreIndices(Words(b, n))
  {
  }

  // Words are set apart by one space.
  lemma JoinedIs(w: string, ws: seq<string>)
    ensures Joined([]) == "" && Joined([w]) == w
    ensures ws != [] ==> Joined([w] + ws) == w + " " + Joined(ws)
  {
    JoinedFront(w, ws);
    JoinedFront(w, []);
    assert [w] + [] == [w];
  }

  // The lengths FromData takes, and how many words they make.
  lemma LengthsAre(len: int)
    ensures GoodLength(len) <==> len in {16, 20, 24, 28, 32}
    ensures GoodLength(len) ==> len * 3 / 4 == if len == 16 then 12 else if len == 20 then 15 else if len == 24 then 18 else if len == 28 then 21 else 24
  {
  }
}

/** CMnemonic::FromData and CMnemonic::Check, bit by bit. */
module Bip39 {
  import opened Numbers
  import opened Options
  import opened Bip39Spec
  import opened Bip39Exact

  method FromData(env: Env, data: seq<Byte>, len: int) returns (mnemonic: string)
    requires |env.words| == 2048 && (GoodLength(len) ==> len <= |data|)
    ensures mnemonic == if GoodLength(len) then Sentence(env, data[..len]) else ""
  {
    hide Word, Joined, Spaced, BitSet;
    if len % 4 != 0 || len < 16 || len > 32 {
      return "";
    }
    var checksum := env.sha256(data[..len]);
    var bits := data[..len] + [checksum];
    var mlen := len * 3 / 4;
    ghost var ix := Words(Bits(bits), mlen);
    ghost var ws := Named(env, ix);
    mnemonic := "";
    NothingJoined();
    var i := 0;
    while i < mlen
      invariant 0 <= i <= mlen
      invariant mnemonic == if i < mlen then Spaced(ws[..i]) else Joined(ws)
    {
      var idx := WordAt(bits, i);
      mnemonic := mnemonic + env.words[idx];
      JoinNext(ws, i);
      if i < mlen - 1 {
        mnemonic := mnemonic + " ";
      } else {
        assert ws[..i + 1] == ws;
      }
      i := i + 1;
    }
  }

  lemma NothingJoined()
    ensures Spaced([]) == ""
  {
  }

  lemma JoinNext(ws: seq<string>, i: nat)
    requires i < |ws|
    ensures Spaced(ws[..i + 1]) == Spaced(ws[..i]) + ws[i] + " "
    ensures Joined(ws[..i + 1]) == Spaced(ws[..i]) + ws[i]
  {
    assert ws[..i + 1][..i] == ws[..i];
  }

  // Eleven bits of a byte string as a number.
  method WordAt(bits: seq<Byte>, i: nat) returns (idx: nat)
    requires 11 * i + 11 <= 8 * |bits|
    ensures idx == Word(Bits(bits), i)
  {
    idx := 0;
    ghost var b := Bits(bits)[11 * i..11 * i + 11];
    var j := 0;
    while j < 11
      invariant 0 <= j <= 11 && idx == Value(b[..j])
    {
      ghost var before := idx;
      idx := idx * 2;
      idx := idx + (if BitSet(bits[(i * 11 + j) / 8], 7 - (i * 11 + j) % 8) then 1 else 0);
      assert b[..j + 1][..j] == b[..j] && b[j] == Bits(bits)[i * 11 + j];
      j := j + 1;
    }
    assert b[..11] == b;
  }

  method Check(env: Env, mnemonic: string) returns (r: bool)
    requires IsWordList(env.words)
    ensures r <==> Accepted(env, mnemonic)
  {
    hide Value, Fixed, Spelled, BitSet, IndexFrom, FirstWord, Indices, SpaceCount, IsWordList, Tail;
    if mnemonic == [] {
      return false;
    }
    WordListSize(env.words);
    var nWordCount := CountWords(mnemonic);
    if nWordCount != 12 && nWordCount != 18 && nWordCount != 24 {
      return false;
    }
    var bits := new Byte[33](_ => 0);
    var ok, nBitsCount, ix := PackWords(env, mnemonic, nWordCount, bits);
    if !ok {
      return false;
    }
    if nBitsCount != nWordCount * 11 {
      return false;
    }
    var len := nWordCount * 4 / 3;
    ghost var packed := bits[..];
    PackedBytes(packed, ix, len);
    bits[32] := bits[len];
    assert bits[..len] == packed[..len];
    var sha := env.sha256(bits[..len]);
    r := SameTop(sha, bits[32], nWordCount);
    TopOfLast(packed, ix, len);
  }

  // "compare first 4 bits", 6 bits, or all 8
  method SameTop(first: Byte, last: Byte, nWordCount: nat) returns (fResult: bool)
    requires nWordCount in {12, 18, 24}
    ensures fResult <==> first / Pow(2, 8 - nWordCount / 3) == last / Pow(2, 8 - nWordCount / 3)
  {
    PowersOfTwo();
    assert Pow(2, 0) == 1 && Pow(2, 2) == 4;
    fResult := false;
    if nWordCount == 12 {
      fResult := first / 16 == last / 16;
    } else if nWordCount == 18 {
      fResult := first / 4 == last / 4;
    } else if nWordCount == 24 {
      fResult := first == last;
    }
  }

  lemma PackedBytes(bytes: seq<Byte>, ix: seq<nat>, len: nat)
    requires Holds(bytes, Spelled(ix)) && len <= |bytes| && 8 * len <= 11 * |ix|
    ensures Bytes(Spelled(ix), len) == bytes[..len]
  {
    hide BitSet, Spelled, Bits, Holds, Bytes;
    var b := Spelled(ix);
    SamePrefix(bytes, b, 8 * len);
    BitsOfPrefix(bytes, len);
    BytesOfBits(bytes[..len], b);
  }

  lemma SamePrefix(bytes: seq<Byte>, b: seq<bool>, n: nat)
    requires Holds(bytes, b) && n <= |b|
    ensures b[..n] == Bits(bytes)[..n]
  {
    hide Bits;
  }

  lemma BitsOfPrefix(bytes: seq<Byte>, len: nat)
    requires len <= |bytes|
    ensures Bits(bytes[..len]) == Bits(bytes)[..8 * len]
  {
    hide BitSet;
    forall k | 0 <= k < 8 * len
      ensures Bits(bytes[..len])[k] == Bits(bytes)[k]
    {
      assert bytes[..len][k / 8] == bytes[k / 8];
    }
  }

  lemma TopOfLast(bytes: seq<Byte>, ix: seq<nat>, len: nat)
    requires |bytes| == 33 && |ix| in {12, 18, 24} && len == |ix| * 4 / 3 && Holds(bytes, Spelled(ix))
    ensures bytes[len] / Pow(2, 8 - |ix| / 3) == Value(Spelled(ix)[8 * len..])
  {
    hide BitSet, Spelled, Value, Fixed, Bits, Pow;
    var b, t := Spelled(ix), |ix| / 3;
    BitsOfByte(bytes, len);
    TailOfBits(Bits(bytes), b, 8 * len, t);
    TopBits(bytes[len], t);
  }

  lemma TailOfBits(all: seq<bool>, b: seq<bool>, n: nat, t: nat)
    requires n + t == |b| && t <= 8 && n + 8 <= |all| && forall k | 0 <= k < |b| :: all[k] == b[k]
    ensures b[n..] == all[n..n + 8][..t]
  {
  }

  method CountWords(mnemonic: string) returns (nWordCount: nat)
    ensures nWordCount == SpaceCount(mnemonic) + 1
  {
    nWordCount := 0;
    var i := 0;
    assert SpaceCount(mnemonic[..0]) == 0;
    while i < |mnemonic|
      invariant 0 <= i <= |mnemonic| && nWordCount == SpaceCount(mnemonic[..i])
    {
      assert mnemonic[..i + 1][..i] == mnemonic[..i];
      if mnemonic[i] == ' ' {
        nWordCount := nWordCount + 1;
      }
      i := i + 1;
    }
    assert mnemonic[..i] == mnemonic;
    nWordCount := nWordCount + 1;
  }

  // The bits before n are those of b, and every bit from n on is clear.
  ghost predicate Holds(bytes: seq<Byte>, b: seq<bool>) {
    && |b| <= 8 * |bytes|
    && forall k | 0 <= k < 8 * |bytes| :: Bits(bytes)[k] == (k < |b| && b[k])
  }

  // The word loop: every word is looked up and its bits are set one by one.
  method PackWords(env: Env, mnemonic: string, nWordCount: nat, bits: array<Byte>)
    returns (ok: bool, nBitsCount: nat, ghost ix: seq<nat>)
    requires |env.words| == 2048 && mnemonic != [] && nWordCount == SpaceCount(mnemonic) + 1 <= 24
    requires bits.Length == 33 && forall k | 0 <= k < 33 :: bits[k] == 0
    modifies bits
    ensures ok <==> Indices(env.words, mnemonic).Some?
    ensures ok ==> Indices(env.words, mnemonic) == Some(ix) && AreIndices(ix) && nBitsCount == 11 * |ix|
    ensures ok ==> Holds(bits[..], Spelled(ix))
  {
    hide Indices, Rest, Fixed, BitSet, IndexFrom, FirstWord, SpaceCount, Holds, Bits, Spelled, Tail, MaxWords;
    ix := [];
    nBitsCount := 0;
    NothingSet(bits[..]);
    NothingRead(env, mnemonic);
    var i := 0;
    ghost var t := mnemonic;
    while i < |mnemonic|
      invariant t == From(mnemonic, i)
      invariant AreIndices(ix) && nBitsCount == 11 * |ix|
      invariant Indices(env.words, mnemonic) == Rest(ix, Indices(env.words, t))
      invariant |ix| + MaxWords(t) <= nWordCount
      invariant Holds(bits[..], Spelled(ix))
      decreases |mnemonic| - i
    {
      FirstWordCounts(t);
      var fits, word := TakeWord(mnemonic, i);
      IndicesStep(env, ix, t);
      if !fits {
        return false, nBitsCount, ix;
      }
      var nWordIndex := Find(env.words, word);
      if nWordIndex == |env.words| {
        return false, nBitsCount, ix;
      }
      nBitsCount := SetWord(bits, nBitsCount, nWordIndex, ix);
      TailAt(mnemonic, i);
      t := Tail(t);
      i := i + |word|;
      ix := ix + [nWordIndex];
      i := i + 1;
    }
    AllRead(env, ix, t);
    ok := true;
  }

  function From(m: string, i: nat): string {
    if i < |m| then m[i..] else []
  }

  lemma TailAt(m: string, i: nat)
    requires i < |m|
    ensures Tail(m[i..]) == From(m, i + |FirstWord(m[i..])| + 1)
  {
  }

  lemma NothingRead(env: Env, m: string)
    ensures From(m, 0) == m && Indices(env.words, m) == Rest([], Indices(env.words, m))
    ensures MaxWords(m) <= SpaceCount(m) + 1
  {
    RestOfNone(Indices(env.words, m));
  }

  lemma AllRead(env: Env, ix: seq<nat>, t: string)
    requires t == []
    ensures Rest(ix, Indices(env.words, t)) == Some(ix)
  {
    assert ix + [] == ix;
  }

  lemma IndicesStep(env: Env, ix: seq<nat>, t: string)
    requires t != []
    ensures var k := IndexFrom(env.words, FirstWord(t), 0);
            Rest(ix, Indices(env.words, t))
            == if |FirstWord(t)| > 9 || k == |env.words| then None else Rest(ix + [k], Indices(env.words, Tail(t)))
  {
    hide FirstWord, Tail, IndexFrom;
    RestNext(ix, IndexFrom(env.words, FirstWord(t), 0), Indices(env.words, Tail(t)));
  }

  lemma RestOfNone(rest: Option<seq<nat>>)
    ensures Rest([], rest) == rest
  {
    match rest case None => case Some(more) => assert [] + more == more;
  }

  lemma RestNext(done: seq<nat>, k: nat, rest: Option<seq<nat>>)
    ensures Rest(done + [k], rest) == Rest(done, Rest([k], rest))
  {
    match rest case None => case Some(more) => assert done + [k] + more == done + ([k] + more);
  }

  // ssCurrentWord: the letters up to the next space, given up on at the tenth.
  method TakeWord(mnemonic: string, i: nat) returns (fits: bool, word: string)
    requires i < |mnemonic|
    ensures fits <==> |FirstWord(mnemonic[i..])| <= 9
    ensures fits ==> word == FirstWord(mnemonic[i..])
  {
    word := "";
    ghost var t := mnemonic[i..];
    while i + |word| < |mnemonic| && mnemonic[i + |word|] != ' '
      invariant i + |word| <= |mnemonic| && |word| <= 9
      invariant word == t[..|word|] && NoSpaces(word)
      decreases |mnemonic| - |word|
    {
      if |word| >= 9 {
        LongWord(t, |word|);
        return false, word;
      }
      assert t[|word|] == mnemonic[i + |word|];
      word := word + [mnemonic[i + |word|]];
    }
    FirstWordIs(t, word);
    fits := true;
  }

  lemma LongWord(t: string, n: nat)
    requires n < |t| && NoSpaces(t[..n]) && t[n] != ' '
    ensures |FirstWord(t)| > n
  {
    assert forall i | 0 <= i < n :: t[i] == t[..n][i];
  }

  method Find(words: seq<string>, w: string) returns (k: nat)
    ensures k == IndexFrom(words, w, 0)
  {
    k := 0;
    while k < |words| && words[k] != w
      invariant k <= |words| && IndexFrom(words, w, 0) == IndexFrom(words, w, k)
    {
      k := k + 1;
    }
  }

  // Eleven more bits, each set in its byte where the index has it.
  method SetWord(bits: array<Byte>, nBits: nat, nWordIndex: nat, ghost ix: seq<nat>) returns (nBitsCount: nat)
    requires bits.Length == 33 && nBits == 11 * |ix| && |ix| < 24 && nWordIndex < 2048
    requires Holds(bits[..], Spelled(ix))
    modifies bits
    ensures nBitsCount == nBits + 11 && Holds(bits[..], Spelled(ix + [nWordIndex]))
  {
    hide BitSet, Holds, Bits, Pow, Or;
    PowersOfTwo();
    ghost var b, w := Spelled(ix), Fixed(nWordIndex, 11);
    nBitsCount := nBits;
    var ki := 0;
    assert b + w[..0] == b;
    while ki < 11
      invariant 0 <= ki <= 11 && nBitsCount == nBits + ki
      invariant Holds(bits[..], b + w[..ki])
    {
      assert b + w[..ki + 1] == b + w[..ki] + [w[ki]];
      ghost var before := bits[..];
      if BitSet(nWordIndex, 10 - ki) {
        var p := 7 - nBitsCount % 8;
        ByteWithBit(bits[nBitsCount / 8], p);
        bits[nBitsCount / 8] := Or(bits[nBitsCount / 8], Pow(2, p));
        HoldsOne(before, b + w[..ki], nBitsCount);
      } else {
        HoldsZero(before, b + w[..ki], nBitsCount);
      }
      nBitsCount := nBitsCount + 1;
      ki := ki + 1;
    }
    assert (ix + [nWordIndex])[..|ix|] == ix && w[..11] == w;
  }

  lemma NothingSet(bytes: seq<Byte>)
    requires forall k | 0 <= k < |bytes| :: bytes[k] == 0
    ensures Holds(bytes, Spelled([]))
  {
    forall k | 0 <= k < 8 * |bytes|
      ensures !Bits(bytes)[k]
    {
      IsQuotient(0, Pow(2, 7 - k % 8), 0, 0);
    }
  }

  lemma HoldsZero(bytes: seq<Byte>, b: seq<bool>, n: nat)
    requires Holds(bytes, b) && n == |b| < 8 * |bytes|
    ensures Holds(bytes, b + [false])
  {
  }

  lemma HoldsOne(bytes: seq<Byte>, b: seq<bool>, n: nat)
    requires Holds(bytes, b) && n == |b| < 8 * |bytes| && Or(bytes[n / 8], Pow(2, 7 - n % 8)) < 0x100
    ensures Holds(bytes[n / 8 := Or(bytes[n / 8], Pow(2, 7 - n % 8))], b + [true])
  {
    hide BitSet, Pow, Or;
    var p := 7 - n % 8;
    var t := bytes[n / 8 := Or(bytes[n / 8], Pow(2, p))];
    forall k | 0 <= k < 8 * |t|
      ensures Bits(t)[k] == (k < n + 1 && (b + [true])[k])
    {
      if k / 8 == n / 8 {
        BitOfOr(bytes[n / 8], Pow(2, p), 7 - k % 8);
        BitOfPower(p, 7 - k % 8);
        assert Bits(bytes)[k] == BitSet(bytes[n / 8], 7 - k % 8);
      } else {
        assert Bits(t)[k] == Bits(bytes)[k];
      }
    }
  }
}

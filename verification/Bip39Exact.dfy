/** The sentences that are accepted are exactly those made from 16, 24 or 32 bytes. */
module Bip39Exact {
  import opened Numbers
  import opened Options
  import opened Bip39Spec

  // ---------------------------------------------------------------- joining and splitting

  lemma {:induction false} SpacedFront(w: string, ws: seq<string>)
    ensures Spaced([w] + ws) == w + " " + Spaced(ws)
  {
    var all := [w] + ws;
    if ws == [] {
      assert all[..0] == [];
    } else {
      var n := |ws| - 1;
      SpacedFront(w, ws[..n]);
      assert all[..n + 1] == [w] + ws[..n];
      Associates3(w + " ", Spaced(ws[..n]), ws[n]);
      Associates3(w + " ", Spaced(ws[..n]) + ws[n], " ");
    }
  }

  lemma Associates3(a: string, b: string, c: string)
    ensures (a + b) + c == a + (b + c)
  {
  }

  lemma JoinedFront(w: string, ws: seq<string>)
    ensures Joined([w] + ws) == if ws == [] then w else w + " " + Joined(ws)
  {
    hide Spaced;
    var all := [w] + ws;
    if ws == [] {
      assert all[..0] == [];
      NothingSpaced(w);
    } else {
      var n := |ws| - 1;
      SpacedFront(w, ws[..n]);
      assert all[..n + 1] == [w] + ws[..n];
      Associates3(w + " ", Spaced(ws[..n]), ws[n]);
    }
  }

  lemma NothingSpaced(w: string)
    ensures Spaced([]) + w == w
  {
  }

  lemma NamedFront(env: Env, k: nat, ix: seq<nat>)
    requires |env.words| == 2048 && k < 2048 && AreIndices(ix)
    ensures AreIndices([k] + ix) && Named(env, [k] + ix) == [env.words[k]] + Named(env, ix)
    ensures Joined(Named(env, [k] + ix))
         == if ix == [] then env.words[k] else env.words[k] + " " + Joined(Named(env, ix))
  {
    hide Joined;
    JoinedFront(env.words[k], Named(env, ix));
  }

  lemma {:induction false} SpacesAdd(a: string, b: string)
    ensures SpaceCount(a + b) == SpaceCount(a) + SpaceCount(b)
  {
    if b == [] {
      assert a + b == a;
    } else {
      SpacesAdd(a, b[..|b| - 1]);
      assert (a + b)[..|a + b| - 1] == a + b[..|b| - 1];
    }
  }

  lemma {:induction false} NoSpaceCount(w: string)
    requires NoSpaces(w)
    ensures SpaceCount(w) == 0
  {
    if w != [] {
      NoSpaceCount(w[..|w| - 1]);
    }
  }

  lemma WordThenText(w: string, t: string)
    requires NoSpaces(w)
    ensures SpaceCount(w + " " + t) == 1 + SpaceCount(t)
    ensures FirstWord(w + " " + t) == w && (w + " " + t)[|w| + 1..] == t
  {
    NoSpaceCount(w);
    SpacesAdd(w, " ");
    SpacesAdd(w + " ", t);
    FirstWordIs(w + " " + t, w);
  }

  lemma FirstWordIs(t: string, w: string)
    requires |w| <= |t| && t[..|w|] == w && NoSpaces(w) && (|w| < |t| ==> t[|w|] == ' ')
    ensures FirstWord(t) == w
  {
    var v := FirstWord(t);
    assert forall i | 0 <= i < |w| :: t[i] == w[i];
    assert forall i | 0 <= i < |v| :: t[i] == v[i];
    assert |v| == |w|;
  }

  lemma IndexOfWord(words: seq<string>, k: nat)
    requires IsWordList(words) && k < |words|
    ensures IndexFrom(words, words[k], 0) == k
  {
  }

  // ---------------------------------------------------------------- reading what was joined

  lemma {:induction false} ReadsNamed(env: Env, ix: seq<nat>)
    requires IsWordList(env.words) && AreIndices(ix) && ix != []
    ensures Joined(Named(env, ix)) != "" && SpaceCount(Joined(Named(env, ix))) == |ix| - 1
    ensures Indices(env.words, Joined(Named(env, ix))) == Some(ix)
  {
    hide Joined, IndexFrom, FirstWord, SpaceCount;
    var w, rest := env.words[ix[0]], ix[1..];
    assert NoSpaces(w) && 0 < |w| <= 9;
    var t := Joined(Named(env, rest));
    assert [ix[0]] + rest == ix;
    NamedFront(env, ix[0], rest);
    IndexOfWord(env.words, ix[0]);
    if rest == [] {
      FirstWordIs(w, w);
      NoSpaceCount(w);
      assert [ix[0]] + [] == ix;
    } else {
      ReadsNamed(env, rest);
      WordThenText(w, t);
      assert [ix[0]] + rest == ix;
    }
  }

  lemma FirstWordCounts(t: string)
    requires t != []
    ensures |FirstWord(t)| < |t| ==> t == FirstWord(t) + " " + Tail(t) && SpaceCount(t) == 1 + SpaceCount(Tail(t))
    ensures |FirstWord(t)| == |t| ==> t == FirstWord(t) && Tail(t) == [] && SpaceCount(t) == 0
    ensures MaxWords(Tail(t)) < MaxWords(t)
  {
    hide FirstWord, SpaceCount;
    var w := FirstWord(t);
    if |w| < |t| {
      assert t == w + " " + t[|w| + 1..];
      WordThenText(w, t[|w| + 1..]);
    } else {
      NoSpaceCount(w);
    }
  }

  // A text has no more words than spaces and one, and one that has as many is those words joined.
  lemma {:induction false} NamedIsRead(env: Env, t: string)
    requires |env.words| == 2048 && Indices(env.words, t).Some?
    ensures AreIndices(Indices(env.words, t).value)
    ensures |Indices(env.words, t).value| <= MaxWords(t)
    ensures t != [] && |Indices(env.words, t).value| == SpaceCount(t) + 1 ==>
              t == Joined(Named(env, Indices(env.words, t).value))
    decreases |t|
  {
    hide Joined, Named, IndexFrom, FirstWord, SpaceCount, Tail;
    if t != [] {
      var w, u := FirstWord(t), Tail(t);
      FirstWordCounts(t);
      var k := IndexFrom(env.words, w, 0);
      NamedIsRead(env, u);
      var rest := Indices(env.words, u).value;
      NamedFront(env, k, rest);
    }
  }

  // ---------------------------------------------------------------- the theorem

  lemma DropMiddle(b: seq<bool>, m: nat, n: nat)
    requires m <= n <= |b|
    ensures b[..n][m..] == b[m..n] && b[..n][..m] == b[..m]
  {
  }

  // The checksum bits of a sentence are the top bits of the checksum byte.
  lemma TopBits(x: Byte, t: nat)
    requires t <= 8
    ensures Value(Fixed(x, 8)[..t]) == x / Pow(2, 8 - t)
    decreases 8 - t
  {
    PowersOfTwo();
    TopBitsOf(x, 8, t);
  }

  lemma {:induction false} TopBitsOf(x: nat, n: nat, t: nat)
    requires t <= n && x < Pow(2, n)
    ensures Value(Fixed(x, n)[..t]) == x / Pow(2, n - t)
    decreases n - t
  {
    if t == n {
      assert Fixed(x, n)[..n] == Fixed(x, n);
      ValueOfFixed(x, n);
      assert Pow(2, 0) == 1;
    } else {
      FixedNext(x, n);
      assert Fixed(x, n)[..t] == Fixed(x / 2, n - 1)[..t];
      TopBitsOf(x / 2, n - 1, t);
      DivDiv(x, 2, Pow(2, n - 1 - t));
    }
  }

  lemma BitsAppend(d: seq<Byte>, c: Byte)
    ensures Bits(d + [c]) == Bits(d) + Fixed(c, 8)
  {
    var e := d + [c];
    BitsOfByte(e, |d|);
    forall k | 0 <= k < 8 * |e|
      ensures Bits(e)[k] == (Bits(d) + Fixed(c, 8))[k]
    {
      if k < 8 * |d| {
        assert e[k / 8] == d[k / 8];
      } else {
        assert Bits(e)[k] == Bits(e)[8 * |d|..8 * |d| + 8][k - 8 * |d|];
      }
    }
  }

  lemma SentenceAccepted(env: Env, d: seq<Byte>)
    requires IsWordList(env.words) && |d| in {16, 24, 32}
    ensures Accepted(env, Sentence(env, d))
  {
    hide Value, Fixed, Bits, Bytes, Word, Spelled, Joined, SpaceCount, FirstWord, IndexFrom, Indices, IsWordList;
    var len, n := |d|, |d| * 3 / 4;
    var t := n / 3;
    var all, c := AllBits(env, d), env.sha256(d);
    var ix := Words(all, n);
    ReadsNamed(env, ix);
    SpelledOfWords(all, n);
    BitsAppend(d, c);
    var b := Spelled(ix);
    assert b[..8 * len] == Bits(d) by { DropMiddle(all, 8 * len, 11 * n); }
    BytesOfBits(d, b);
    assert b[8 * len..] == Fixed(c, 8)[..t] by { DropMiddle(all, 8 * len, 11 * n); }
    TopBits(c, t);
  }

  lemma SentenceRefused(env: Env, d: seq<Byte>)
    requires IsWordList(env.words) && |d| in {20, 28}
    ensures !Accepted(env, Sentence(env, d))
  {
    ReadsNamed(env, Words(AllBits(env, d), |d| * 3 / 4));
  }

  // The data of an accepted sentence, from which the sentence comes.
  lemma AcceptedIsSentence(env: Env, m: string) returns (d: seq<Byte>)
    requires IsWordList(env.words) && Accepted(env, m)
    ensures |d| in {16, 24, 32} && m == Sentence(env, d)
  {
    hide Value, Fixed, Bits, Bytes, Word, Spelled, Joined, SpaceCount, FirstWord, IndexFrom, Indices, IsWordList;
    var ix := Indices(env.words, m).value;
    WordListSize(env.words);
    NamedIsRead(env, m);
    var n, len, t := |ix|, |ix| * 4 / 3, |ix| / 3;
    var b := Spelled(ix);
    d := Bytes(b, len);
    var c := env.sha256(d);
    var all := AllBits(env, d);
    BitsOfBytes(b, len);
    BitsAppend(d, c);
    TopBits(c, t);
    SameBits(b[8 * len..], Fixed(c, 8)[..t]);
    assert all[..11 * n] == b by {
      assert b == b[..8 * len] + b[8 * len..];
      assert all[..11 * n] == Bits(d) + Fixed(c, 8)[..t];
    }
    WordsOfSpelled(ix, all);
  }

  lemma WordListSize(words: seq<string>)
    requires IsWordList(words)
    ensures |words| == 2048
  {
  }

  lemma SameBits(a: seq<bool>, b: seq<bool>)
    requires |a| == |b| && Value(a) == Value(b)
    ensures a == b
  {
    FixedOfValue(a);
    FixedOfValue(b);
  }

  // Check accepts a text exactly when it is the sentence of 16, 24 or 32 bytes.
  lemma AcceptedExactly(env: Env, m: string)
    requires IsWordList(env.words)
    ensures Accepted(env, m) <==> exists d: seq<Byte> | |d| in {16, 24, 32} :: m == Sentence(env, d)
  {
    if Accepted(env, m) {
      var d := AcceptedIsSentence(env, m);
    }
    forall d: seq<Byte> | |d| in {16, 24, 32} && m == Sentence(env, d)
      ensures Accepted(env, m)
    {
      SentenceAccepted(env, d);
    }
  }
}

/** Mnemonic sentences: bytes and their checksum as words of eleven bits each. */
module Bip39Spec {
  import opened Numbers
  import opened Options

  // The word list and the hash; CSHA256 gives 32 bytes, of which only the first matters.
  datatype Env = Env(words: seq<string>, sha256: seq<Byte> -> Byte)

  predicate NoSpaces(w: string) {
    forall i | 0 <= i < |w| :: w[i] != ' '
  }

  // 2048 different words, none empty, of at most nine letters and without spaces.
  ghost predicate IsWordList(words: seq<string>) {
    && |words| == 2048
    && (forall k | 0 <= k < |words| :: 0 < |words[k]| <= 9 && NoSpaces(words[k]))
    && (forall j, k | 0 <= j < k < |words| :: words[j] != words[k])
  }

  // ---------------------------------------------------------------- bits

  // The bits of a byte string, most significant first.
  function Bits(d: seq<Byte>): (b: seq<bool>)
    ensures |b| == 8 * |d|
  {
    seq(8 * |d|, k requires 0 <= k < 8 * |d| => BitSet(d[k / 8], 7 - k % 8))
  }

  function Value(b: seq<bool>): nat {
    if b == [] then 0 else 2 * Value(b[..|b| - 1]) + (if b[|b| - 1] then 1 else 0)
  }

  // A number as n bits.
  function Fixed(x: nat, n: nat): (b: seq<bool>)
    ensures |b| == n
  {
    seq(n, k requires 0 <= k < n => BitSet(x, n - 1 - k))
  }

  lemma {:induction false} ValueBelow(b: seq<bool>)
    ensures Value(b) < Pow(2, |b|)
  {
    if b != [] {
      ValueBelow(b[..|b| - 1]);
    }
  }

  lemma FixedNext(x: nat, n: nat)
    requires n > 0
    ensures Fixed(x, n) == Fixed(x / 2, n - 1) + [x % 2 == 1]
  {
    forall k | 0 <= k < n
      ensures Fixed(x, n)[k] == (Fixed(x / 2, n - 1) + [x % 2 == 1])[k]
    {
      if k < n - 1 {
        BitShift(x, n - 2 - k);
      } else {
        BitShift(x, 0);
      }
    }
  }

  lemma {:induction false} ValueOfFixed(x: nat, n: nat)
    requires x < Pow(2, n)
    ensures Value(Fixed(x, n)) == x
  {
    if n > 0 {
      FixedNext(x, n);
      var b := Fixed(x, n);
      assert b[..n - 1] == Fixed(x / 2, n - 1);
      ValueOfFixed(x / 2, n - 1);
    }
  }

  lemma {:induction false} FixedOfValue(b: seq<bool>)
    ensures Fixed(Value(b), |b|) == b
  {
    if b != [] {
      var n := |b|;
      FixedNext(Value(b), n);
      FixedOfValue(b[..n - 1]);
      assert b == b[..n - 1] + [b[n - 1]];
    }
  }

  // A byte's bits are its eight bits.
  lemma BitsOfByte(d: seq<Byte>, j: nat)
    requires j < |d|
    ensures Bits(d)[8 * j..8 * j + 8] == Fixed(d[j], 8)
  {
    forall k | 0 <= k < 8
      ensures Bits(d)[8 * j..8 * j + 8][k] == Fixed(d[j], 8)[k]
    {
      assert (8 * j + k) / 8 == j && (8 * j + k) % 8 == k;
    }
  }

  // The bytes that a string of bits spells.
  function Bytes(b: seq<bool>, n: nat): (d: seq<Byte>)
    requires 8 * n <= |b|
    ensures |d| == n
  {
    seq(n, j requires 0 <= j < n => ByteValue(b[8 * j..8 * j + 8]))
  }

  function ByteValue(b: seq<bool>): Byte
    requires |b| == 8
  {
    ValueBelow(b);
    PowersOfTwo();
    Value(b)
  }

  lemma BytesOfBits(d: seq<Byte>, b: seq<bool>)
    requires |b| >= 8 * |d| && b[..8 * |d|] == Bits(d)
    ensures Bytes(b, |d|) == d
  {
    PowersOfTwo();
    forall j | 0 <= j < |d|
      ensures Bytes(b, |d|)[j] == d[j]
    {
      assert b[8 * j..8 * j + 8] == b[..8 * |d|][8 * j..8 * j + 8];
      BitsOfByte(d, j);
      ValueOfFixed(d[j], 8);
    }
  }

  lemma BitsOfBytes(b: seq<bool>, n: nat)
    requires 8 * n <= |b|
    ensures Bits(Bytes(b, n)) == b[..8 * n]
  {
    var d := Bytes(b, n);
    forall k | 0 <= k < 8 * n
      ensures Bits(d)[k] == b[k]
    {
      var j := k / 8;
      FixedOfValue(b[8 * j..8 * j + 8]);
      BitsOfByte(d, j);
      assert Bits(d)[8 * j..8 * j + 8][k % 8] == Bits(d)[k];
    }
  }

  // ---------------------------------------------------------------- words of eleven bits

  function Word(b: seq<bool>, i: nat): (x: nat)
    requires 11 * i + 11 <= |b|
    ensures x < 2048
  {
    ValueBelow(b[11 * i..11 * i + 11]);
    assert Pow(2, 11) == 2048 by { PowersOfTwo(); PowAdd(2, 8, 3); }
    Value(b[11 * i..11 * i + 11])
  }

  // The first n words of a string of bits.
  function Words(b: seq<bool>, n: nat): (ix: seq<nat>)
    requires 11 * n <= |b|
    ensures |ix| == n
  {
    seq(n, i requires 0 <= i < n => Word(b, i))
  }

  predicate AreIndices(ix: seq<nat>) {
    forall i | 0 <= i < |ix| :: ix[i] < 2048
  }

  function Spelled(ix: seq<nat>): (b: seq<bool>)
    ensures |b| == 11 * |ix|
  {
    if ix == [] then [] else Spelled(ix[..|ix| - 1]) + Fixed(ix[|ix| - 1], 11)
  }

  lemma {:induction false} SpelledAt(ix: seq<nat>, i: nat)
    requires i < |ix|
    ensures Spelled(ix)[11 * i..11 * i + 11] == Fixed(ix[i], 11)
  {
    var n := |ix| - 1;
    if i < n {
      SpelledAt(ix[..n], i);
      assert Spelled(ix)[11 * i..11 * i + 11] == Spelled(ix[..n])[11 * i..11 * i + 11];
    }
  }

  lemma WordsOfSpelled(ix: seq<nat>, b: seq<bool>)
    requires AreIndices(ix) && |b| >= 11 * |ix| && b[..11 * |ix|] == Spelled(ix)
    ensures Words(b, |ix|) == ix
  {
    assert Pow(2, 11) == 2048 by { PowersOfTwo(); PowAdd(2, 8, 3); }
    forall i | 0 <= i < |ix|
      ensures Words(b, |ix|)[i] == ix[i]
    {
      assert b[11 * i..11 * i + 11] == b[..11 * |ix|][11 * i..11 * i + 11];
      SpelledAt(ix, i);
      ValueOfFixed(ix[i], 11);
    }
  }

  lemma {:induction false} SpelledOfWords(b: seq<bool>, n: nat)
    requires 11 * n <= |b|
    ensures Spelled(Words(b, n)) == b[..11 * n]
  {
    if n > 0 {
      SpelledOfWords(b, n - 1);
      assert Words(b, n)[..n - 1] == Words(b, n - 1);
      FixedOfValue(b[11 * (n - 1)..11 * (n - 1) + 11]);
      assert b[..11 * n] == b[..11 * (n - 1)] + b[11 * (n - 1)..11 * (n - 1) + 11];
    }
  }

  // ---------------------------------------------------------------- sentences

  function Spaced(ws: seq<string>): string {
    if ws == [] then "" else Spaced(ws[..|ws| - 1]) + ws[|ws| - 1] + " "
  }

  function Joined(ws: seq<string>): string {
    if ws == [] then "" else Spaced(ws[..|ws| - 1]) + ws[|ws| - 1]
  }

  function Named(env: Env, ix: seq<nat>): seq<string>
    requires |env.words| == 2048 && AreIndices(ix)
  {
    seq(|ix|, i requires 0 <= i < |ix| => env.words[ix[i]])
  }

  // The bits behind a sentence: the data and the checksum byte.
  function AllBits(env: Env, d: seq<Byte>): seq<bool> {
    Bits(d + [env.sha256(d)])
  }

  predicate GoodLength(len: int) {
    len % 4 == 0 && 16 <= len <= 32
  }

  // len * 3 / 4 words: the data and one checksum bit for every 32 of its bits.
  function Sentence(env: Env, d: seq<Byte>): string
    requires |env.words| == 2048 && GoodLength(|d|)
  {
    Joined(Named(env, Words(AllBits(env, d), |d| * 3 / 4)))
  }

  // ---------------------------------------------------------------- reading a sentence

  // The letters up to the next space.
  function FirstWord(t: string): (w: string)
    ensures |w| <= |t| && w == t[..|w|] && NoSpaces(w)
    ensures |w| < |t| ==> t[|w|] == ' '
  {
    if t == [] || t[0] == ' ' then [] else [t[0]] + FirstWord(t[1..])
  }

  function IndexFrom(words: seq<string>, w: string, k: nat): (r: nat)
    requires k <= |words|
    ensures k <= r <= |words|
    ensures r < |words| ==> words[r] == w
    ensures forall j | k <= j < r :: words[j] != w
    decreases |words| - k
  {
    if k == |words| || words[k] == w then k else IndexFrom(words, w, k + 1)
  }

  // What follows the first word and the space behind it.
  function Tail(t: string): (u: string)
    ensures t != [] ==> |u| < |t|
  {
    if |FirstWord(t)| < |t| then t[|FirstWord(t)| + 1..] else []
  }

  // Indices already known in front of those still to be read.
  function Rest(done: seq<nat>, rest: Option<seq<nat>>): Option<seq<nat>> {
    match rest case None => None case Some(more) => Some(done + more)
  }

  // The indices of the words of a text, or None at a word that is too long or unknown.
  function Indices(words: seq<string>, t: string): Option<seq<nat>>
    decreases |t|
  {
    if t == [] then Some([])
    else
      var k := IndexFrom(words, FirstWord(t), 0);
      if |FirstWord(t)| > 9 || k == |words| then None else Rest([k], Indices(words, Tail(t)))
  }

  function SpaceCount(t: string): nat {
    if t == [] then 0 else SpaceCount(t[..|t| - 1]) + (if t[|t| - 1] == ' ' then 1 else 0)
  }

  // The most words a text can have.
  function MaxWords(t: string): nat {
    if t == [] then 0 else SpaceCount(t) + 1
  }

  // n words carry n * 4 / 3 bytes and n / 3 checksum bits.
  predicate ChecksumOk(env: Env, ix: seq<nat>)
    requires |ix| in {12, 18, 24}
  {
    var b, len := Spelled(ix), |ix| * 4 / 3;
    Value(b[8 * len..]) == env.sha256(Bytes(b, len)) / Pow(2, 8 - |ix| / 3)
  }

  predicate Accepted(env: Env, m: string) {
    && m != ""
    && SpaceCount(m) + 1 in {12, 18, 24}
    && Indices(env.words, m).Some?
    && |Indices(env.words, m).value| == SpaceCount(m) + 1
    && ChecksumOk(env, Indices(env.words, m).value)
  }
}

/** The rolling bloom filter: two filters cleared in turn, so that one of them always holds
    at least the last nElements keys. */
module BloomRolling {
  import opened Numbers
  import opened Bloom

  function Elements(s: seq<Key>): set<Key> {
    set k | k in s
  }

  // The last n keys of a history.
  function Last(history: seq<Key>, n: nat): set<Key>
    requires n <= |history|
  {
    Elements(history[|history| - n..])
  }

  // How many of the keys inserted since the reset each filter holds, with filters for 2n keys
  // of which b1 is cleared before every key number 2n, 4n, ... and b2 before every n, 3n, ...
  function Held1(k: nat, n: nat): (h: nat)
    requires n > 0
    ensures h <= k
  {
    if k > 0 && k % (2 * n) == 0 then 2 * n else k % (2 * n)
  }

  function Held2(k: nat, n: nat): (h: nat)
    requires n > 0
    ensures h <= k
  {
    if k <= n then k else Held1(k - n, n)
  }

  lemma HeldNext(k: nat, n: nat)
    requires n > 0
    ensures (k + 1) % (2 * n) == if k % (2 * n) + 1 == 2 * n then 0 else k % (2 * n) + 1
    ensures Held1(k + 1, n) == if k % (2 * n) == 0 then 1 else Held1(k, n) + 1
    ensures Held2(k + 1, n) == if k % (2 * n) == n then 1 else Held2(k, n) + 1
  {
    ModNext(k, 2 * n);
    if k >= n {
      ModNext(k - n, 2 * n);
      ModMinus(k, n);
    } else {
      IsQuotient(k, 2 * n, 0, k);
    }
  }

  lemma ModNext(k: nat, d: nat)
    requires d > 1
    ensures (k + 1) % d == if k % d + 1 == d then 0 else k % d + 1
  {
    DivMod(k, d);
    if k % d + 1 == d {
      Distributes(d, k / d, 1);
      IsQuotient(k + 1, d, k / d + 1, 0);
    } else {
      IsQuotient(k + 1, d, k / d, k % d + 1);
    }
  }

  lemma ModMinus(k: nat, n: nat)
    requires n > 0 && k >= n
    ensures (k - n) % (2 * n) == if k % (2 * n) >= n then k % (2 * n) - n else k % (2 * n) + n
  {
    DivMod(k, 2 * n);
    var q, r := k / (2 * n), k % (2 * n);
    if r >= n {
      IsQuotient(k - n, 2 * n, q, r - n);
    } else {
      Distributes(2 * n, q, 1);
      IsQuotient(k - n, 2 * n, q - 1, r + n);
    }
  }

  // The filter that Contains asks holds the last n keys, or all of them while there are fewer.
  lemma AskedHoldsEnough(k: nat, n: nat)
    requires n > 0
    ensures (if k % (2 * n) < n then Held2(k, n) else Held1(k, n)) >= if k < n then k else n
  {
    if k > n {
      ModMinus(k, n);
    } else {
      IsQuotient(k, 2 * n, 0, k);
    }
  }

  lemma LastNext(history: seq<Key>, key: Key, n: nat)
    requires n <= |history|
    ensures Last(history + [key], n + 1) == Last(history, n) + {key}
    ensures Last(history + [key], 1) == {key}
  {
    var h := history + [key];
    assert h[|h| - (n + 1)..] == history[|history| - n..] + [key];
    assert h[|h| - 1..] == [key];
  }

  lemma LastMore(history: seq<Key>, m: nat, n: nat)
    requires m <= n <= |history|
    ensures Last(history, m) <= Last(history, n)
  {
    assert history[|history| - m..] == history[|history| - n..][n - m..];
  }

  class CRollingBloomFilter {
    const nBloomSize: nat
    var nInsertions: nat
    const b1: CBloomFilter
    const b2: CBloomFilter
    // Every key inserted since the last reset.
    ghost var history: seq<Key>

    ghost function Repr(): set<object> {
      {this, b1, b1.vData, b2, b2.vData}
    }

    ghost predicate Valid()
      reads Repr()
    {
      var n := nBloomSize / 2;
      && n > 0 && nBloomSize == 2 * n
      && b1 != b2 && b1.vData != b2.vData
      && b1.Valid() && b2.Valid()
      && nInsertions == |history| % (2 * n)
      && b1.keys == Last(history, Held1(|history|, n))
      && b2.keys == Last(history, Held2(|history|, n))
    }

    // Sizes and number of hashes come out of floating-point formulas; here they are given.
    constructor (murmur: (UInt32, Key) -> UInt32, nElements: nat, size: nat, nHashFuncs: nat, nNewTweak: UInt32)
      requires nElements > 0 && size > 0 && nHashFuncs > 0
      ensures Valid() && fresh(Repr()) && history == [] && nBloomSize == 2 * nElements
    {
      nInsertions := 0;
      nBloomSize := nElements * 2;
      b1 := new CBloomFilter(murmur, size, nHashFuncs, 0);
      b2 := new CBloomFilter(murmur, size, nHashFuncs, 0);
      history := [];
      new;
      Reset(nNewTweak);
    }

    method Reset(nNewTweak: UInt32)
      requires nBloomSize > 0 && nBloomSize % 2 == 0
      requires b1 != b2 && b1.vData != b2.vData && b1.Valid() && b2.Valid()
      modifies Repr()
      ensures Valid() && history == []
    {
      b1.Reset(nNewTweak);
      b2.Reset(nNewTweak);
      nInsertions := 0;
      history := [];
      IsQuotient(0, nBloomSize, 0, 0);
      assert Last([], 0) == {};
    }

    method Insert(vKey: Key)
      requires Valid()
      modifies Repr()
      ensures Valid() && history == old(history) + [vKey]
    {
      hide Last, Held1, Held2;
      ghost var n, k := nBloomSize / 2, |history|;
      HeldNext(k, n);
      LastNext(history, vKey, Held1(k, n));
      LastNext(history, vKey, Held2(k, n));
      if nInsertions == 0 {
        b1.Clear();
      } else if nInsertions == nBloomSize / 2 {
        b2.Clear();
      }
      b1.Insert(vKey);
      b2.Insert(vKey);
      nInsertions := nInsertions + 1;
      if nInsertions == nBloomSize {
        nInsertions := 0;
      }
      history := history + [vKey];
    }

    // True for every one of the last nElements keys, and otherwise only if the filter asked
    // has all of the key's hashes.
    method Contains(vKey: Key) returns (r: bool)
      requires Valid()
      ensures vKey in Last(history, if |history| < nBloomSize / 2 then |history| else nBloomSize / 2) ==> r
      ensures r <==> (if nInsertions < nBloomSize / 2 then b2.Matches(b2.keys, vKey) else b1.Matches(b1.keys, vKey))
    {
      hide Last, Held1, Held2;
      ghost var n, k := nBloomSize / 2, |history|;
      AskedHoldsEnough(k, n);
      ghost var asked := if nInsertions < n then Held2(k, n) else Held1(k, n);
      LastMore(history, if k < n then k else n, asked);
      if nInsertions < nBloomSize / 2 {
        r := b2.Contains(vKey);
        return;
      }
      r := b1.Contains(vKey);
    }
  }
}

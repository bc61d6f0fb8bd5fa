/** The bloom filter, on the bits of its byte array. */
module Bloom {
  import opened Numbers

  type Key = seq<Byte>

  class CBloomFilter {
    // MurmurHash3 as a function of its seed and data.
    const murmur: (UInt32, Key) -> UInt32
    const nHashFuncs: nat
    const vData: array<Byte>
    var isFull: bool
    var isEmpty: bool
    var nTweak: UInt32
    // The keys inserted since the last clear.
    ghost var keys: set<Key>

    function Hash(nHashNum: nat, vDataToHash: Key): (h: nat)
      requires vData.Length > 0
      reads `nTweak
      ensures h < 8 * vData.Length
    {
      murmur((nHashNum * 0xFBA4C795 + nTweak) % 0x1_0000_0000, vDataToHash) % (vData.Length * 8)
    }

    predicate BitAt(p: nat)
      requires p < 8 * vData.Length
      reads vData
    {
      BitSet(vData[p / 8], p % 8)
    }

    // Whether one of the first n hashes of a key is p.
    ghost predicate Hits(key: Key, p: nat, n: nat)
      requires vData.Length > 0
      reads `nTweak
    {
      exists i | 0 <= i < n :: Hash(i, key) == p
    }

    ghost predicate Covered(ks: set<Key>, p: nat)
      requires vData.Length > 0
      reads `nTweak
    {
      exists key | key in ks :: Hits(key, p, nHashFuncs)
    }

    // Every hash of a key is a hash of one of the keys given.
    ghost predicate Matches(ks: set<Key>, key: Key)
      requires vData.Length > 0
      reads `nTweak
    {
      ks != {} && forall i | 0 <= i < nHashFuncs :: Covered(ks, Hash(i, key))
    }

    // The bits that are set are exactly the hashes of the inserted keys.
    ghost predicate BitsAre(ks: set<Key>)
      requires vData.Length > 0
      reads `nTweak, vData
    {
      forall p | 0 <= p < 8 * vData.Length :: BitAt(p) <==> Covered(ks, p)
    }

    ghost predicate Valid()
      reads this, vData
    {
      && vData.Length > 0 && nHashFuncs > 0
      && BitsAre(keys)
      && (isFull ==> forall p | 0 <= p < 8 * vData.Length :: BitAt(p))
      && (isEmpty <==> keys == {})
    }

    // A filter of a given size, as CRollingBloomFilter creates it.
    constructor (murmur: (UInt32, Key) -> UInt32, size: nat, nHashFuncs: nat, nTweak: UInt32)
      requires size > 0 && nHashFuncs > 0
      ensures Valid() && keys == {} && fresh(vData)
      ensures this.murmur == murmur && this.nHashFuncs == nHashFuncs && vData.Length == size && this.nTweak == nTweak
    {
      this.murmur := murmur;
      this.nHashFuncs := nHashFuncs;
      this.nTweak := nTweak;
      vData := new Byte[size](_ => 0);
      isFull := false;
      isEmpty := true;
      keys := {};
      new;
      NoBits();
    }

    lemma NoBits()
      requires vData.Length > 0 && forall k | 0 <= k < vData.Length :: vData[k] == 0
      ensures BitsAre({})
    {
      forall p | 0 <= p < 8 * vData.Length
        ensures !BitAt(p)
      {
        ZeroHasNoBits(p % 8);
      }
    }

    method Insert(vKey: Key)
      requires Valid()
      modifies this`isEmpty, this`keys, vData
      ensures Valid() && keys == old(keys) + {vKey}
    {
      hide BitSet, Hash;
      if isFull {
        FullStays(keys, vKey);
        keys := keys + {vKey};
        return;
      }
      var i := 0;
      while i < nHashFuncs
        invariant 0 <= i <= nHashFuncs && keys == old(keys)
        invariant forall p | 0 <= p < 8 * vData.Length :: BitAt(p) <==> Covered(keys, p) || Hits(vKey, p, i)
      {
        var nIndex := Hash(i, vKey);
        SetOneBit(nIndex);
        i := i + 1;
      }
      forall p | 0 <= p < 8 * vData.Length
        ensures BitAt(p) <==> Covered(keys + {vKey}, p)
      {
        CoveredGrows(keys, vKey, p);
      }
      isEmpty := false;
      keys := keys + {vKey};
    }

    lemma CoveredGrows(ks: set<Key>, key: Key, p: nat)
      requires vData.Length > 0
      ensures Covered(ks + {key}, p) <==> Covered(ks, p) || Hits(key, p, nHashFuncs)
    {
    }

    lemma FullStays(ks: set<Key>, key: Key)
      requires vData.Length > 0 && BitsAre(ks) && forall p | 0 <= p < 8 * vData.Length :: BitAt(p)
      ensures BitsAre(ks + {key}) && ks != {}
    {
      hide BitAt, Hits;
      forall p | 0 <= p < 8 * vData.Length
        ensures Covered(ks + {key}, p)
      {
        assert BitAt(p);
        CoveredGrows(ks, key, p);
      }
      assert BitAt(0) && Covered(ks, 0);
    }

    // vData[nIndex >> 3] |= (1 << (7 & nIndex))
    method SetOneBit(nIndex: nat)
      requires nIndex < 8 * vData.Length
      modifies vData
      ensures forall p | 0 <= p < 8 * vData.Length :: BitAt(p) <==> old(BitAt(p)) || p == nIndex
    {
      hide BitSet, Or, Pow;
      var x := vData[nIndex / 8];
      ByteWithBit(x, nIndex % 8);
      vData[nIndex / 8] := Or(x, Pow(2, nIndex % 8));
      forall p | 0 <= p < 8 * vData.Length
        ensures BitAt(p) <==> old(BitAt(p)) || p == nIndex
      {
        if p / 8 == nIndex / 8 {
          BitOfOr(x, Pow(2, nIndex % 8), p % 8);
          BitOfPower(nIndex % 8, p % 8);
        }
      }
    }

    // True exactly when every hash of the key is a hash of an inserted key.
    method Contains(vKey: Key) returns (r: bool)
      requires Valid()
      ensures r <==> Matches(keys, vKey)
      ensures vKey in keys ==> r
    {
      hide BitSet, Hash, BitAt;
      OwnHashes(vKey);
      if isFull {
        FullMatches(vKey);
        return true;
      }
      if isEmpty {
        return false;
      }
      var i := 0;
      while i < nHashFuncs
        invariant 0 <= i <= nHashFuncs
        invariant forall j | 0 <= j < i :: Covered(keys, Hash(j, vKey))
      {
        var nIndex := Hash(i, vKey);
        if !BitAt(nIndex) {
          return false;
        }
        i := i + 1;
      }
      return true;
    }

    lemma OwnHashes(key: Key)
      requires vData.Length > 0
      ensures key in keys ==> Matches(keys, key)
    {
      hide Hash;
      if key in keys {
        forall i | 0 <= i < nHashFuncs
          ensures Covered(keys, Hash(i, key))
        {
          assert Hits(key, Hash(i, key), nHashFuncs);
        }
      }
    }

    lemma FullMatches(key: Key)
      requires Valid() && isFull
      ensures Matches(keys, key)
    {
      hide Hash, BitAt, Hits;
      FullStays(keys, key);
      forall i | 0 <= i < nHashFuncs
        ensures Covered(keys, Hash(i, key))
      {
        assert BitAt(Hash(i, key));
      }
    }

    method Clear()
      requires vData.Length > 0 && nHashFuncs > 0
      modifies this`isFull, this`isEmpty, this`keys, vData
      ensures Valid() && keys == {} && !isFull
      ensures forall k | 0 <= k < vData.Length :: vData[k] == 0
    {
      var k := 0;
      while k < vData.Length
        invariant 0 <= k <= vData.Length && forall j | 0 <= j < k :: vData[j] == 0
      {
        vData[k] := 0;
        k := k + 1;
      }
      isFull := false;
      isEmpty := true;
      keys := {};
      NoBits();
    }

    method Reset(nNewTweak: UInt32)
      requires vData.Length > 0 && nHashFuncs > 0
      modifies this, vData
      ensures Valid() && keys == {} && nTweak == nNewTweak
    {
      Clear();
      nTweak := nNewTweak;
      NoBits();
    }

    // "Checks for empty and full filters to avoid wasting cpu": what Contains answers stays the same.
    method UpdateEmptyFull()
      requires Valid()
      modifies this`isFull, this`isEmpty
      ensures Valid()
      ensures isFull <==> forall k | 0 <= k < vData.Length :: vData[k] == 0xff
    {
      hide BitSet, Hash;
      var full, empty := true, true;
      var i := 0;
      while i < vData.Length
        invariant 0 <= i <= vData.Length
        invariant full <==> forall k | 0 <= k < i :: vData[k] == 0xff
        invariant empty <==> forall k | 0 <= k < i :: vData[k] == 0
      {
        full := full && vData[i] == 0xff;
        empty := empty && vData[i] == 0;
        i := i + 1;
      }
      if full { AllOnes(); }
      EmptyMeans();
      isFull := full;
      isEmpty := empty;
    }

    lemma AllOnes()
      requires forall k | 0 <= k < vData.Length :: vData[k] == 0xff
      ensures forall p | 0 <= p < 8 * vData.Length :: BitAt(p)
    {
      hide BitSet;
      forall p | 0 <= p < 8 * vData.Length
        ensures BitAt(p)
      {
        OnesHaveBits(p % 8);
      }
    }

    // All bytes are zero exactly when nothing was inserted: every key has a hash.
    lemma EmptyMeans()
      requires Valid()
      ensures keys == {} <==> forall k | 0 <= k < vData.Length :: vData[k] == 0
    {
      hide BitSet, Hash;
      if keys == {} {
        forall k | 0 <= k < vData.Length
          ensures vData[k] == 0
        {
          forall p | 0 <= p < 8
            ensures !BitSet(vData[k], p)
          {
            assert (8 * k + p) / 8 == k && (8 * k + p) % 8 == p;
            assert !BitAt(8 * k + p);
          }
          NoBitsIsZero(vData[k]);
        }
      } else {
        var key :| key in keys;
        var p := Hash(0, key);
        assert Hits(key, p, nHashFuncs);
        assert BitAt(p);
        ZeroHasNoBits(p % 8);
      }
    }
  }

  lemma ZeroHasNoBits(p: nat)
    ensures !BitSet(0, p)
  {
    IsQuotient(0, Pow(2, p), 0, 0);
  }

  lemma OnesHaveBits(p: nat)
    requires p < 8
    ensures BitSet(0xff, p)
  {
    PowersOfTwo();
    assert Pow(2, 0) == 1 && Pow(2, 1) == 2 && Pow(2, 2) == 4 && Pow(2, 3) == 8;
    assert Pow(2, 5) == 32 && Pow(2, 6) == 64 && Pow(2, 7) == 128;
  }

  lemma NoBitsIsZero(x: Byte)
    requires forall p | 0 <= p < 8 :: !BitSet(x, p)
    ensures x == 0
  {
    NoBitsBelow(x, 8);
    PowersOfTwo();
  }

  lemma {:induction false} NoBitsBelow(x: nat, n: nat)
    requires forall p | 0 <= p < n :: !BitSet(x, p)
    ensures x % Pow(2, n) == 0
  {
    if n > 0 {
      BitShift(x, 0);
      forall p | 0 <= p < n - 1
        ensures !BitSet(x / 2, p)
      {
        BitShift(x, p);
      }
      NoBitsBelow(x / 2, n - 1);
      var p := Pow(2, n - 1);
      DivMod(x / 2, p);
      var q := x / 2 / p;
      assert 2 * (q * p) == q * (2 * p) by { Associates(q, 2, p); Associates(2, q, p); }
      IsQuotient(x, 2 * p, q, 0);
    } else {
      assert Pow(2, 0) == 1;
    }
  }
}

/** The block index with its skip pointers, and the active chain. */
module Chain {
  import opened Numbers
  import opened ChainHeights
  import opened ChainWalk

  class CBlockIndex {
    const hash: nat
    var pprev: CBlockIndex?
    var pskip: CBlockIndex?
    var nHeight: int
    // The branch this block ends, from the genesis block on; path[h] is its ancestor at height h.
    ghost var path: seq<CBlockIndex>

    // Every block of the branch has its height, its own branch, its predecessor, and a skip
    // pointer that is absent or set as BuildSkip sets it.
    ghost predicate Valid()
      reads this, path
    {
      && nHeight == |path| - 1 >= 0
      && path[nHeight] == this
      && forall h | 0 <= h < |path| :: LinkedAt(h)
    }

    ghost predicate LinkedAt(h: int)
      requires 0 <= h < |path|
      reads this, path
    {
      var b := path[h];
      && b.nHeight == h
      && b.path == path[..h + 1]
      && b.pprev == (if h == 0 then null else path[h - 1])
      && (b.pskip == null || (h > 0 && GetSkipHeight(h) < h && b.pskip == path[GetSkipHeight(h)]))
    }

    // BuildSkip was called for every block of the branch.
    ghost predicate HasSkips()
      reads this, path
    {
      forall h | 0 < h < |path| :: path[h].pskip != null
    }

    lemma AncestorValid(h: int)
      requires Valid() && 0 <= h <= nHeight
      ensures path[h].Valid() && path[h].nHeight == h && path[h].path == path[..h + 1]
    {
      var b := path[h];
      assert LinkedAt(h);
      forall k | 0 <= k <= h
        ensures b.LinkedAt(k)
      {
        assert LinkedAt(k);
        assert path[..h + 1][..k + 1] == path[..k + 1];
      }
    }

    // The block reached by following pprev n times.
    ghost function Back(n: nat): (b: CBlockIndex?)
      requires Valid()
      reads this, path
      decreases n
    {
      assert LinkedAt(nHeight);
      if n == 0 then this
      else if pprev == null then null
      else
        AncestorValid(nHeight - 1);
        pprev.Back(n - 1)
    }

    lemma {:induction false} BackIsAncestor(n: nat)
      requires Valid()
      ensures Back(n) == if n <= nHeight then path[nHeight - n] else null
      decreases n
    {
      assert LinkedAt(nHeight);
      if n > 0 && pprev != null {
        AncestorValid(nHeight - 1);
        pprev.BackIsAncestor(n - 1);
      }
    }

    // A new block of the tree: the genesis block, or the successor of a block already there.
    constructor (hash: nat, prev: CBlockIndex?)
      requires prev != null ==> prev.Valid()
      ensures Valid() && pprev == prev && this.hash == hash
      ensures path == (if prev == null then [] else prev.path) + [this]
      ensures pskip == if prev == null then null else prev.path[GetSkipHeight(nHeight)]
      ensures (prev != null ==> prev.HasSkips()) ==> HasSkips()
    {
      this.hash := hash;
      pprev := null;
      pskip := null;
      nHeight := 0;
      path := [];
      new;
      path := [this];
      if prev != null {
        pprev := prev;
        nHeight := prev.nHeight + 1;
        path := prev.path + [this];
        assert prev.LinkedAt(prev.nHeight);
        SuccessorValid(prev);
        BuildSkip();
      }
    }

    lemma SuccessorValid(prev: CBlockIndex)
      requires prev.Valid() && this !in prev.path
      requires path == prev.path + [this] && nHeight == prev.nHeight + 1 && pprev == prev && pskip == null
      ensures Valid()
    {
      forall h | 0 <= h < |path|
        ensures LinkedAt(h)
      {
        if h < |prev.path| {
          assert prev.LinkedAt(h);
          assert path[..h + 1] == prev.path[..h + 1];
        } else {
          assert path[..h + 1] == path;
        }
      }
    }

    // The ancestor at a height, as found by skipping: the one that following pprev finds, in at
    // most as many steps as the square of the number of bits of the height.
    method GetAncestor(height: int) returns (r: CBlockIndex?, ghost steps: nat)
      requires Valid()
      ensures r == if 0 <= height <= nHeight then Back(nHeight - height) else null
      ensures 0 <= height <= nHeight ==> r == path[height]
      ensures 0 <= height <= nHeight && HasSkips() ==> steps == WalkSteps(nHeight, height)
      ensures HasSkips() ==> forall bits: nat | nHeight < Pow(2, bits) :: steps <= bits * bits
    {
      hide Pow, WalkSteps;
      steps := 0;
      if height > nHeight || height < 0 {
        NoNegativeSquares();
        return null, 0;
      }
      BackIsAncestor(nHeight - height);
      var pindexWalk := this;
      var heightWalk := nHeight;
      while heightWalk > height
        invariant height <= heightWalk <= nHeight
        invariant pindexWalk == path[heightWalk]
        invariant HasSkips() ==> steps + WalkSteps(heightWalk, height) == WalkSteps(nHeight, height)
      {
        assert LinkedAt(heightWalk);
        OneStep(heightWalk, height);
        var heightSkip := GetSkipHeight(heightWalk);
        var heightSkipPrev := GetSkipHeight(heightWalk - 1);
        if pindexWalk.pskip != null
          && (heightSkip == height
              || (heightSkip > height && !(heightSkipPrev < heightSkip - 2 && heightSkipPrev >= height)))
        {
          pindexWalk := pindexWalk.pskip;
          heightWalk := heightSkip;
        } else {
          assert pindexWalk.pprev != null;
          pindexWalk := pindexWalk.pprev;
          heightWalk := heightWalk - 1;
        }
        steps := steps + 1;
      }
      NoSteps(height);
      forall bits: nat | HasSkips() && nHeight < Pow(2, bits) ensures steps <= bits * bits {
        WalkLength(nHeight, height, bits);
      }
      r := pindexWalk;
    }

    method BuildSkip()
      requires Valid()
      modifies this`pskip
      ensures Valid()
      ensures pskip == if pprev == null then old(pskip) else path[GetSkipHeight(nHeight)]
      ensures nHeight > 0 && old(forall h | 0 < h < nHeight :: path[h].pskip != null) ==> HasSkips()
    {
      assert LinkedAt(nHeight);
      if pprev != null {
        AncestorValid(nHeight - 1);
        assert pprev.path == path[..nHeight];
        var skip;
        ghost var steps;
        skip, steps := pprev.GetAncestor(GetSkipHeight(nHeight));
        pskip := skip;
        forall h | 0 <= h < |path|
          ensures LinkedAt(h)
        {
          assert old(LinkedAt(h));
          assert old(path[h].path) == path[h].path;
        }
      }
    }
  }

  // The blocks two branches have in common are a common beginning.
  lemma CommonPrefix(a: CBlockIndex, b: CBlockIndex, h: int)
    requires a.Valid() && b.Valid() && 0 <= h <= a.nHeight && h <= b.nHeight && a.path[h] == b.path[h]
    ensures a.path[..h + 1] == b.path[..h + 1]
  {
    assert a.LinkedAt(h) && b.LinkedAt(h);
  }

  // The hashes of the blocks at some heights of a branch.
  ghost predicate Named(path: seq<CBlockIndex>, heights: seq<nat>, hashes: seq<nat>) {
    && |hashes| == |heights|
    && forall i | 0 <= i < |heights| :: heights[i] < |path| && hashes[i] == path[heights[i]].hash
  }

  // The locator from height `start` on, with the heights `listed` done and height h next; none is next at -1.
  ghost predicate LocatorSoFar(path: seq<CBlockIndex>, start: nat, listed: seq<nat>, hashes: seq<nat>, h: int, nStep: nat)
    requires nStep > 0
  {
    && LocatorHeights(start, 1, 0) == (if h < 0 then listed else listed + LocatorHeights(h, nStep, |listed|))
    && Named(path, listed, hashes)
  }

  lemma LocatorStart(path: seq<CBlockIndex>, start: nat)
    ensures LocatorSoFar(path, start, [], [], start, 1)
  {
  }

  lemma LocatorNext(path: seq<CBlockIndex>, start: nat, listed: seq<nat>, hashes: seq<nat>, h: nat, nStep: nat)
    requires nStep > 0 && LocatorSoFar(path, start, listed, hashes, h, nStep) && h < |path|
    ensures |hashes| == |listed|
    ensures LocatorSoFar(path, start, listed + [h], hashes + [path[h].hash],
              if h == 0 then -1 else if h > nStep then h - nStep else 0, if |hashes| + 1 > 10 then 2 * nStep else nStep)
  {
    HeightsNext(listed, h, nStep);
    hide LocatorHeights;
  }

  // The last step may have been doubled or not.
  lemma LocatorDone(path: seq<CBlockIndex>, start: nat, listed: seq<nat>, hashes: seq<nat>, nStep: nat)
    requires nStep > 0 && (LocatorSoFar(path, start, listed, hashes, -1, nStep) || LocatorSoFar(path, start, listed, hashes, -1, 2 * nStep))
    ensures |hashes| == |LocatorHeights(start, 1, 0)|
    ensures forall i | 0 <= i < |hashes| :: LocatorHeights(start, 1, 0)[i] < |path| && hashes[i] == path[LocatorHeights(start, 1, 0)[i]].hash
  {
    hide LocatorHeights;
  }

  // One more height of a locator.
  lemma HeightsNext(listed: seq<nat>, h: nat, nStep: nat)
    requires nStep > 0
    ensures listed + LocatorHeights(h, nStep, |listed|) ==
      if h == 0 then listed + [h] else
        (listed + [h]) + LocatorHeights(if h > nStep then h - nStep else 0, if |listed| + 1 > 10 then 2 * nStep else nStep, |listed| + 1)
  {
  }

  class CChain {
    var vChain: seq<CBlockIndex?>

    // Either empty or exactly the branch that ends in its last block.
    ghost predicate Valid()
      reads this, Blocks()
    {
      vChain != [] ==>
        var tip := vChain[|vChain| - 1];
        tip != null && vChain == tip.path && tip.Valid()
    }

    ghost function Blocks(): set<CBlockIndex>
      reads this
    {
      set b: CBlockIndex | b in vChain
    }

    constructor ()
      ensures Valid() && vChain == []
    {
      vChain := [];
    }

    function Tip(): (r: CBlockIndex?)
      reads this
    {
      if |vChain| > 0 then vChain[|vChain| - 1] else null
    }

    // operator[]
    function At(nHeight: int): (r: CBlockIndex?)
      reads this
    {
      if nHeight < 0 || nHeight >= |vChain| then null else vChain[nHeight]
    }

    function Height(): int
      reads this
    {
      |vChain| - 1
    }

    predicate Contains(pindex: CBlockIndex)
      reads this, pindex
    {
      At(pindex.nHeight) == pindex
    }

    function Next(pindex: CBlockIndex): (r: CBlockIndex?)
      reads this, pindex
    {
      if Contains(pindex) then At(pindex.nHeight + 1) else null
    }

    // Contains finds exactly the blocks reached from the tip by pprev, and Next is the block
    // whose pprev is the one given.
    lemma ContainsAncestors(p: CBlockIndex)
      requires Valid() && p.Valid() && vChain != []
      ensures Contains(p) <==> exists n | 0 <= n < |vChain| :: Tip().Back(n) == p
      ensures Next(p) != null <==> Contains(p) && p != Tip()
      ensures Next(p) != null ==> Next(p).pprev == p
    {
      var tip: CBlockIndex := Tip();
      if Contains(p) {
        tip.BackIsAncestor(tip.nHeight - p.nHeight);
        assert tip.LinkedAt(tip.nHeight);
        if p.nHeight < tip.nHeight {
          assert tip.LinkedAt(p.nHeight + 1);
          assert tip.LinkedAt(p.nHeight);
        }
      }
      forall n | 0 <= n < |vChain| && tip.Back(n) == p
        ensures Contains(p)
      {
        tip.BackIsAncestor(n);
        assert tip.LinkedAt(tip.nHeight - n);
      }
    }

    method SetTip(pindex: CBlockIndex?)
      requires Valid() && (pindex != null ==> pindex.Valid())
      modifies this
      ensures Valid()
      ensures vChain == if pindex == null then [] else pindex.path
    {
      if pindex == null {
        vChain := [];
        return;
      }
      var n := pindex.nHeight + 1;
      vChain := if n <= |vChain| then vChain[..n] else vChain + seq(n - |vChain|, _ => null);
      var walk: CBlockIndex? := pindex;
      ghost var h := pindex.nHeight;
      while walk != null && vChain[walk.nHeight] != walk
        invariant -1 <= h <= pindex.nHeight && |vChain| == pindex.nHeight + 1
        invariant walk == if h < 0 then null else pindex.path[h]
        invariant h >= 0 ==> walk.nHeight == h
        invariant forall k | h < k <= pindex.nHeight :: vChain[k] == pindex.path[k]
        invariant forall k | 0 <= k <= h && k < |old(vChain)| :: vChain[k] == old(vChain)[k]
        invariant forall k | 0 <= k <= h && k >= |old(vChain)| :: vChain[k] == null
        decreases h
      {
        assert pindex.LinkedAt(h);
        vChain := vChain[walk.nHeight := walk];
        walk := walk.pprev;
        if h > 0 { assert pindex.LinkedAt(h - 1); }
        h := h - 1;
      }
      if walk != null {
        // The rest was there already: the old chain is a branch through this block.
        assert h < |old(vChain)|;
        CommonPrefix(old(vChain[|vChain| - 1]), pindex, h);
        assert forall k | 0 <= k <= h :: old(vChain)[k] == pindex.path[..h + 1][k];
      }
      assert vChain == pindex.path;
    }

    // The last block both on the chain and among pindex's ancestors, or null if there is none.
    method FindFork(pindex: CBlockIndex?) returns (r: CBlockIndex?)
      requires Valid() && (pindex != null ==> pindex.Valid())
      ensures pindex == null ==> r == null
      ensures pindex != null && r != null ==>
                0 <= r.nHeight <= pindex.nHeight && r.nHeight < |vChain| && r == vChain[r.nHeight]
                && (forall k | 0 <= k <= r.nHeight :: vChain[k] == pindex.path[k])
                && (forall k | r.nHeight < k <= pindex.nHeight && k < |vChain| :: vChain[k] != pindex.path[k])
      ensures pindex != null && r == null ==> forall k | 0 <= k <= pindex.nHeight && k < |vChain| :: vChain[k] != pindex.path[k]
    {
      if pindex == null {
        return null;
      }
      r := pindex;
      if pindex.nHeight > Height() {
        ghost var steps;
        r, steps := pindex.GetAncestor(Height());
      }
      ghost var h := if pindex.nHeight > Height() then Height() else pindex.nHeight;
      if r != null { assert pindex.LinkedAt(h); }
      while r != null && !Contains(r)
        invariant -1 <= h <= pindex.nHeight && h < |vChain|
        invariant r == if h < 0 then null else pindex.path[h]
        invariant h >= 0 ==> r.nHeight == h
        invariant forall k | h < k <= pindex.nHeight && k < |vChain| :: vChain[k] != pindex.path[k]
        decreases h
      {
        assert pindex.LinkedAt(h);
        r := r.pprev;
        if h > 0 { assert pindex.LinkedAt(h - 1); }
        h := h - 1;
      }
      if r != null {
        CommonPrefix(vChain[|vChain| - 1], pindex, h);
        assert forall k | 0 <= k <= h :: vChain[k] == pindex.path[..h + 1][k];
      }
    }

    // The ancestor of walk at a height, by the chain's index where walk is on the chain.
    method StepBack(ghost start: CBlockIndex, walk: CBlockIndex, nHeight: int) returns (r: CBlockIndex)
      requires Valid() && start.Valid()
      requires 0 <= nHeight <= walk.nHeight <= start.nHeight && walk == start.path[walk.nHeight]
      ensures r == start.path[nHeight] && r.nHeight == nHeight
    {
      start.AncestorValid(walk.nHeight);
      start.AncestorValid(nHeight);
      if Contains(walk) {
        CommonPrefix(vChain[|vChain| - 1], start, walk.nHeight);
        assert vChain[nHeight] == start.path[..walk.nHeight + 1][nHeight];
        r := At(nHeight);
      } else {
        ghost var steps;
        r, steps := walk.GetAncestor(nHeight);
      }
    }

    // The hashes of pindex's ancestors (the tip's by default) at the locator heights.
    method GetLocator(pindex: CBlockIndex?) returns (vHave: seq<nat>)
      requires Valid() && (pindex != null ==> pindex.Valid())
      ensures pindex == null && vChain == [] ==> vHave == []
      ensures (pindex != null || vChain != []) ==>
                var start := if pindex != null then pindex else Tip();
                var heights := LocatorHeights(start.nHeight, 1, 0);
                |vHave| == |heights|
                && forall i | 0 <= i < |heights| :: heights[i] < |start.path| && vHave[i] == start.path[heights[i]].hash
    {
      hide LocatorHeights, LocatorSoFar, CBlockIndex.LinkedAt;
      var nStep := 1;
      vHave := [];
      var walk: CBlockIndex? := pindex;
      if walk == null {
        walk := Tip();
      }
      if walk == null {
        return;
      }
      ghost var start: CBlockIndex := walk;
      ghost var path, top, h := start.path, start.nHeight, start.nHeight;
      ghost var listed: seq<nat> := [];
      LocatorStart(path, top);
      while walk != null
        invariant nStep > 0 && h == if walk == null then -1 else walk.nHeight
        invariant walk != null ==> 0 <= h <= top && walk == path[h]
        invariant LocatorSoFar(path, top, listed, vHave, h, nStep)
        decreases h
      {
        LocatorNext(path, top, listed, vHave, h, nStep);
        vHave := vHave + [walk.hash];
        listed := listed + [h];
        if walk.nHeight == 0 {
          h := -1;
          break;
        }
        var nHeight := if walk.nHeight - nStep > 0 then walk.nHeight - nStep else 0;
        walk := StepBack(start, walk, nHeight);
        h := nHeight;
        if |vHave| > 10 {
          nStep := nStep * 2;
        }
      }
      LocatorDone(path, top, listed, vHave, nStep);
    }
  }
}

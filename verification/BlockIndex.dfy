/**
  The tree of block index entries with parent and skip links, and the active chain: an array from height to entry.
 */
module BlockTree {

  import opened Numbers
  import opened SkipHeights

  // ----- entries -----

  class BlockIndex {
    const prev: BlockIndex?
    const height: nat
    const hash: nat
    const skip: BlockIndex?

    /** Heights count from a root without a parent. */
    ghost predicate Linked()
      decreases height
    {
      if height == 0 then prev == null else prev != null && prev.height + 1 == height && prev.Linked()
    }

    /** The entries from the root to this one: position `i` holds the one of height `i`. */
    ghost function Path(): (r: seq<BlockIndex>)
      requires Linked()
      ensures |r| == height + 1 && r[height] == this
      decreases height
    {
      if height == 0 then [this] else prev.Path() + [this]
    }

    /** The ancestor of height `i`. */
    ghost function At(i: nat): BlockIndex
      requires Linked() && i <= height
    {
      Path()[i]
    }

    /** The parent walk: `n` steps back, or null when the root is passed. */
    ghost function Back(n: nat): BlockIndex? {
      if n == 0 then this else if prev == null then null else prev.Back(n - 1)
    }

    /** The skip links of this entry and those before it are unset or lead to the entry at the skip height. */
    ghost predicate SkipsOk()
      requires Linked()
    {
      forall i :: 0 <= i <= height && At(i).skip != null ==> 0 < i && At(i).skip == At(SkipHeight(i))
    }

    constructor (prev: BlockIndex?, hash: nat, skip: BlockIndex?)
      requires prev != null ==> prev.Linked()
      ensures this.prev == prev && this.hash == hash && this.skip == skip && Linked()
      ensures height == if prev == null then 0 else prev.height + 1
    {
      this.prev, this.hash, this.skip := prev, hash, skip;
      height := if prev == null then 0 else prev.height + 1;
    }

    /** Every entry but the root has a skip link. */
    ghost predicate AllSkips()
      requires Linked()
    {
      forall i :: 0 < i <= height ==> At(i).skip != null
    }

    /** The ancestor of a height by skip and parent pointers: the one the parent walk reaches, or null when there is none. The
        number of pointers followed is that of the walk over heights when no skip link is missing. */
    method GetAncestor(h: int) returns (r: BlockIndex?, ghost steps: nat)
      requires Linked() && SkipsOk()
      ensures 0 <= h <= height ==> r == At(h)
      ensures !(0 <= h <= height) ==> r == null
      ensures 0 <= h <= height && AllSkips() ==> steps == Steps(height, h)
      ensures 0 <= h <= height && AllSkips() ==> forall n: nat :: 0 < n && height <= Pow2(n) ==> steps <= MaxSteps(n)
    {
      hide SkipHeight, Pow2, MaxSteps, Steps;
      steps := 0;
      if h > height || h < 0 {
        return null, 0;
      }
      var walk := this;
      var heightWalk := height;
      while heightWalk > h
        invariant h <= heightWalk <= height && walk == At(heightWalk)
        invariant AllSkips() ==> steps + Steps(heightWalk, h) == Steps(height, h)
      {
        OnPath(this, heightWalk);
        StepTo(heightWalk, h);
        var heightSkip := SkipHeight(heightWalk);
        var heightSkipPrev := SkipHeight(heightWalk - 1);
        if walk.skip != null
           && (heightSkip == h || (heightSkip > h && !(heightSkipPrev < heightSkip - 2 && heightSkipPrev >= h))) {
          assert At(heightWalk).skip == At(SkipHeight(heightWalk));
          walk := walk.skip;
          heightWalk := heightSkip;
        } else {
          assert walk.prev == At(heightWalk - 1);
          walk := walk.prev;
          heightWalk := heightWalk - 1;
        }
        steps := steps + 1;
      }
      StepsZero(h);
      WalkBounds(height, h);
      r := walk;
    }

    /** The skip link of an entry below this one. */
    method BuildSkip() returns (skip: BlockIndex?)
      requires Linked() && SkipsOk()
      ensures SkipHeight(height + 1) <= height && skip == At(SkipHeight(height + 1))
    {
      hide SkipHeight;
      ghost var steps;
      skip, steps := GetAncestor(SkipHeight(height + 1));
    }
  }

  /** Each entry on a path has that height and the path up to it as its own. */
  lemma {:induction false} OnPath(b: BlockIndex, i: nat)
    requires b.Linked() && i <= b.height
    ensures b.At(i).Linked() && b.At(i).height == i && b.At(i).Path() == b.Path()[..i + 1]
    ensures i > 0 ==> b.At(i).prev == b.At(i - 1)
    decreases b.height
  {
    if i == b.height {
      assert b.Path()[..i + 1] == b.Path();
    } else {
      OnPath(b.prev, i);
      assert b.Path()[..i + 1] == b.prev.Path()[..i + 1];
    }
  }

  /** The path is the parent walk. */
  lemma {:induction false} BackIsPath(b: BlockIndex, n: nat)
    requires b.Linked()
    ensures b.Back(n) == if n <= b.height then b.At(b.height - n) else null
    decreases n
  {
    if n > 0 && b.prev != null {
      BackIsPath(b.prev, n - 1);
    }
  }

  // ----- the tree -----

  class Tree {
    var blocks: set<BlockIndex>

    ghost predicate Valid()
      reads this
    {
      forall b :: b in blocks ==>
        b.Linked() && b.SkipsOk() && b.AllSkips() && forall i :: 0 <= i <= b.height ==> b.At(i) in blocks
    }

    constructor ()
      ensures Valid() && blocks == {}
    {
      blocks := {};
    }

    /** Adds an entry below an existing one, or a root, and builds its skip link. */
    method AddBlock(prev: BlockIndex?, hash: nat) returns (b: BlockIndex)
      requires Valid() && (prev != null ==> prev in blocks)
      modifies this
      ensures Valid() && blocks == old(blocks) + {b} && b.prev == prev && b.hash == hash
    {
      hide SkipHeight;
      var skip: BlockIndex? := null;
      if prev != null {
        skip := prev.BuildSkip();
      }
      b := new BlockIndex(prev, hash, skip);
      NewBlock(b);
      blocks := blocks + {b};
    }
  }

  /** An entry whose parent is in order is so too when its own skip link is. */
  lemma NewBlock(b: BlockIndex)
    requires b.Linked() && (b.prev == null ==> b.skip == null)
    requires b.prev != null ==> b.prev.SkipsOk() && (b.skip == null || b.skip == b.At(SkipHeight(b.height)))
    ensures b.SkipsOk() && (b.prev == null || (b.prev.AllSkips() && b.skip != null) ==> b.AllSkips())
    ensures forall i :: 0 <= i <= b.height ==> b.At(i) == if i == b.height then b else b.prev.At(i)
  {
    hide SkipHeight;
    forall i | 0 <= i <= b.height && b.At(i).skip != null ensures 0 < i && b.At(i).skip == b.At(SkipHeight(i)) {
      if i < b.height {
        assert b.At(i) == b.prev.At(i);
        assert b.At(SkipHeight(i)) == b.prev.At(SkipHeight(i));
      }
    }
    assert forall i :: 0 <= i < b.height ==> b.At(i) == b.prev.At(i);
  }

  /** The entries of a set are exactly shared from the bottom up: if two paths meet at a height, they agree below it. */
  lemma PathsMeet(a: BlockIndex, b: BlockIndex, h: nat, i: nat)
    requires a.Linked() && b.Linked() && i <= h <= a.height && h <= b.height && a.At(h) == b.At(h)
    ensures a.At(i) == b.At(i)
  {
    OnPath(a, h);
    OnPath(b, h);
    assert a.Path()[..h + 1][i] == b.Path()[..h + 1][i];
  }

  // ----- the active chain -----

  /** `r` is the highest entry on both paths, or null when they share none. */
  ghost predicate LastCommon(a: BlockIndex, b: BlockIndex, r: BlockIndex?)
    requires a.Linked() && b.Linked()
  {
    if r == null then forall i :: 0 <= i <= a.height && i <= b.height ==> a.At(i) != b.At(i)
    else
      && r.height <= a.height && r.height <= b.height && a.At(r.height) == r == b.At(r.height)
      && forall i :: r.height < i <= a.height && i <= b.height ==> a.At(i) != b.At(i)
  }

  method LastCommonAncestor(a: BlockIndex, b: BlockIndex) returns (r: BlockIndex?)
    requires a.Linked() && b.Linked() && a.SkipsOk() && b.SkipsOk()
    ensures LastCommon(a, b, r)
  {
    var pa: BlockIndex?, pb: BlockIndex? := a, b;
    ghost var steps;
    if a.height > b.height {
      pa, steps := a.GetAncestor(b.height);
    } else if b.height > a.height {
      pb, steps := b.GetAncestor(a.height);
    }
    ghost var h: int := if a.height < b.height then a.height else b.height;
    while pa != pb && pa != null && pb != null
      invariant -1 <= h <= a.height && h <= b.height
      invariant if h < 0 then pa == null && pb == null else pa == a.At(h) && pb == b.At(h)
      invariant forall i :: h < i <= a.height && i <= b.height ==> a.At(i) != b.At(i)
      decreases h
    {
      OnPath(a, h);
      OnPath(b, h);
      pa := pa.prev;
      pb := pb.prev;
      h := h - 1;
    }
    if h >= 0 {
      OnPath(a, h);
    }
    return pa;
  }

  /** What the array of a chain should be. */
  ghost predicate Coherent(vChain: seq<BlockIndex?>) {
    vChain == [] || (var tip := vChain[|vChain| - 1]; tip != null && tip.Linked() && tip.SkipsOk() && vChain == tip.Path())
  }

  class Chain {
    var vChain: seq<BlockIndex?>

    ghost predicate Valid()
      reads this
    {
      Coherent(vChain)
    }

    constructor ()
      ensures Valid() && vChain == []
    {
      vChain := [];
    }

    function Get(h: int): BlockIndex?
      reads this
    {
      if h < 0 || h >= |vChain| then null else vChain[h]
    }

    function Height(): int
      reads this
    {
      |vChain| - 1
    }

    predicate Contains(b: BlockIndex)
      reads this
    {
      Get(b.height) == b
    }

    function Tip(): BlockIndex?
      reads this
    {
      if |vChain| > 0 then vChain[|vChain| - 1] else null
    }

    /** Makes `tip` the end of the chain; walking back stops at the first entry that is already in place. */
    method SetTip(tip: BlockIndex?)
      requires Valid() && (tip != null ==> tip.Linked() && tip.SkipsOk())
      modifies this
      ensures Valid()
      ensures vChain == if tip == null then [] else tip.Path()
    {
      if tip == null {
        vChain := [];
        return;
      }
      ghost var before := vChain;
      vChain := Resized(vChain, tip.height + 1);
      var walk: BlockIndex? := tip;
      ghost var h: int := tip.height;
      while walk != null && vChain[walk.height] != walk
        invariant -1 <= h <= tip.height && |vChain| == tip.height + 1
        invariant if h < 0 then walk == null else walk == tip.At(h) && walk.height == h
        invariant forall i :: h < i <= tip.height ==> vChain[i] == tip.At(i)
        invariant forall i :: 0 <= i <= h ==> vChain[i] == Resized(before, tip.height + 1)[i]
        decreases h
      {
        OnPath(tip, h);
        if h > 0 {
          OnPath(tip, h - 1);
        }
        vChain := vChain[walk.height := walk];
        walk := walk.prev;
        h := h - 1;
      }
      if h >= 0 {
        SharedBelow(before, tip, h);
      }
      assert vChain == tip.Path();
    }

    /** The highest entry that this chain and the path of an entry share, or null when there is none. */
    method FindFork(b: BlockIndex?) returns (r: BlockIndex?)
      requires Valid() && (b != null ==> b.Linked() && b.SkipsOk())
      ensures b == null || vChain == [] ==> r == null
      ensures b != null && vChain != [] ==> LastCommon(vChain[|vChain| - 1], b, r)
    {
      hide SkipHeight, BlockIndex.Path, BlockIndex.SkipsOk, BlockIndex.Linked;
      if b == null {
        return null;
      }
      r := b;
      if b.height > Height() {
        ghost var steps;
        r, steps := b.GetAncestor(Height());
      }
      ghost var h: int := if b.height > Height() then Height() else b.height;
      if vChain == [] {
        return;
      }
      TipInOrder(vChain);
      ghost var tip := vChain[|vChain| - 1];
      OnPath(b, h);
      while r != null && !Contains(r)
        invariant -1 <= h <= b.height && h <= tip.height
        invariant if h < 0 then r == null else r == b.At(h) && r.height == h
        invariant forall i :: h < i <= b.height && i <= tip.height ==> tip.At(i) != b.At(i)
        decreases h
      {
        OnPath(b, h);
        if h > 0 {
          OnPath(b, h - 1);
        }
        assert vChain[h] == tip.At(h);
        r := r.prev;
        h := h - 1;
      }
    }

    /** Hashes of ancestors at exponentially growing distances; looking them up in the chain or by skip links is the same. */
    method GetLocator(b: BlockIndex?) returns (have: seq<nat>)
      requires Valid() && (b != null ==> b.Linked() && b.SkipsOk())
      ensures b == null && vChain == [] ==> have == []
      ensures b != null || vChain != [] ==>
                var from := if b == null then vChain[|vChain| - 1] else b;
                have == HashesAt(from, LocatorHeights(from.height, 1, 0))
    {
      hide LocatorHeights, HashesAt, Coherent;
      have := [];
      var step: nat := 1;
      var walk := Tip();
      if b != null {
        walk := b;
      }
      TipInOrder(vChain);
      if walk == null {
        return;
      }
      ghost var from: BlockIndex := walk;
      ghost var heights: seq<nat> := [];
      LocatorStart(from);
      while walk.height != 0
        invariant step > 0 && walk != null && walk.Linked() && walk.SkipsOk()
        invariant Below(from, walk)
        invariant LocatorSoFar(from, heights, have, walk.height, step)
        decreases walk.height
      {
        var h := NextHeight(walk.height, step);
        LocatorNext(from, heights, have, walk, step);
        heights := heights + [walk.height];
        have := have + [walk.hash];
        SkipsBelow(walk, h);
        StillBelow(from, walk, h);
        if Contains(walk) {
          ChainHas(vChain, walk, h);
          walk := Get(h);
        } else {
          ghost var steps;
          walk, steps := walk.GetAncestor(h);
        }
        if |have| > 10 {
          step := step * 2;
        }
      }
      LocatorDone(from, heights, have, walk, step);
      have := have + [walk.hash];
    }
  }

  lemma TipInOrder(vChain: seq<BlockIndex?>)
    requires Coherent(vChain)
    ensures vChain != [] ==> var tip := vChain[|vChain| - 1]; tip != null && tip.Linked() && tip.SkipsOk()
  {
  }

  ghost predicate Below(from: BlockIndex, b: BlockIndex) {
    from.Linked() && b.height <= from.height && from.At(b.height) == b
  }

  lemma StillBelow(from: BlockIndex, b: BlockIndex, h: nat)
    requires Below(from, b) && h <= b.height && b.Linked()
    ensures Below(from, b.At(h)) && b.At(h).height == h
  {
    OnPath(b, h);
    OnPath(from, b.height);
    PathsMeet(from, b, b.height, h);
  }

  lemma ChainHas(vChain: seq<BlockIndex?>, b: BlockIndex, h: nat)
    requires Coherent(vChain) && b.Linked() && h <= b.height < |vChain| && vChain[b.height] == b
    ensures vChain[h] == b.At(h)
  {
    SharedBelow(vChain, b, b.height);
  }

  /** Collected so far are the hashes at `heights`; those still to come start at `h`. */
  ghost predicate LocatorSoFar(from: BlockIndex, heights: seq<nat>, have: seq<nat>, h: nat, step: nat)
    requires from.Linked() && step > 0
  {
    && |have| == |heights| && (forall i :: 0 <= i < |heights| ==> heights[i] <= from.height)
    && have == HashesAt(from, heights)
    && LocatorHeights(from.height, 1, 0) == heights + LocatorHeights(h, step, |have|)
  }

  lemma LocatorStart(from: BlockIndex)
    requires from.Linked()
    ensures LocatorSoFar(from, [], [], from.height, 1)
  {
  }

  lemma LocatorNext(from: BlockIndex, heights: seq<nat>, have: seq<nat>, walk: BlockIndex, step: nat)
    requires from.Linked() && step > 0 && walk.height > 0 && Below(from, walk)
    requires LocatorSoFar(from, heights, have, walk.height, step)
    ensures LocatorSoFar(from, heights + [walk.height], have + [walk.hash],
                         NextHeight(walk.height, step), NextStep(step, |have| + 1))
  {
    hide LocatorHeights, HashesAt, NextHeight, NextStep;
    var h := walk.height;
    LocatorUnfold(h, step, |have|);
    Regroup(heights, [h], LocatorHeights(NextHeight(h, step), NextStep(step, |have| + 1), |have| + 1));
    OneMoreHash(from, heights, h);
  }

  lemma Regroup(a: seq<nat>, b: seq<nat>, c: seq<nat>)
    ensures a + (b + c) == a + b + c
  {
  }

  lemma OneMoreHash(from: BlockIndex, heights: seq<nat>, h: nat)
    requires from.Linked() && h <= from.height && forall i :: 0 <= i < |heights| ==> heights[i] <= from.height
    ensures forall i :: 0 <= i <= |heights| ==> (heights + [h])[i] <= from.height
    ensures HashesAt(from, heights + [h]) == HashesAt(from, heights) + [from.At(h).hash]
  {
  }

  lemma LocatorDone(from: BlockIndex, heights: seq<nat>, have: seq<nat>, walk: BlockIndex, step: nat)
    requires from.Linked() && step > 0 && walk.height == 0 && Below(from, walk)
    requires LocatorSoFar(from, heights, have, 0, step)
    ensures forall i :: 0 <= i < |LocatorHeights(from.height, 1, 0)| ==> LocatorHeights(from.height, 1, 0)[i] <= from.height
    ensures have + [walk.hash] == HashesAt(from, LocatorHeights(from.height, 1, 0))
  {
    assert LocatorHeights(from.height, 1, 0) == heights + [0];
  }

  /** The heights of a locator: steps of one at first, doubling after ten entries, down to the root. */
  ghost function LocatorHeights(h: nat, step: nat, n: nat): (r: seq<nat>)
    requires step > 0
    ensures |r| > 0 && forall i :: 0 <= i < |r| ==> r[i] <= h
    decreases h
  {
    if h == 0 then [0]
    else [h] + LocatorHeights(NextHeight(h, step), NextStep(step, n + 1), n + 1)
  }

  lemma LocatorUnfold(h: nat, step: nat, n: nat)
    requires step > 0
    ensures h == 0 ==> LocatorHeights(h, step, n) == [0]
    ensures h > 0 ==> LocatorHeights(h, step, n) == [h] + LocatorHeights(NextHeight(h, step), NextStep(step, n + 1), n + 1)
  {
  }

  function NextHeight(h: nat, step: nat): nat {
    if h - step > 0 then h - step else 0
  }

  function NextStep(step: nat, n: nat): (r: nat)
    ensures step > 0 ==> r > 0
  {
    if n > 10 then step * 2 else step
  }

  /** The heights start at the given one, fall strictly and end at the root. */
  lemma {:induction false} LocatorFalls(h: nat, step: nat, n: nat)
    requires step > 0
    ensures var r := LocatorHeights(h, step, n);
            r[0] == h && r[|r| - 1] == 0 && forall i, j :: 0 <= i < j < |r| ==> r[i] > r[j]
    decreases h
  {
    hide LocatorHeights;
    LocatorUnfold(h, step, n);
    if h > 0 {
      LocatorFalls(NextHeight(h, step), NextStep(step, n + 1), n + 1);
    }
  }

  ghost function HashesAt(b: BlockIndex, heights: seq<nat>): seq<nat>
    requires b.Linked() && forall i :: 0 <= i < |heights| ==> heights[i] <= b.height
  {
    seq(|heights|, i requires 0 <= i < |heights| => b.At(heights[i]).hash)
  }

  lemma SkipsBelow(b: BlockIndex, h: nat)
    requires b.Linked() && b.SkipsOk() && h <= b.height
    ensures b.At(h).Linked() && b.At(h).SkipsOk()
  {
    hide SkipHeight;
    OnPath(b, h);
    var a := b.At(h);
    forall i | 0 <= i <= h && a.At(i).skip != null ensures 0 < i && a.At(i).skip == a.At(SkipHeight(i)) {
      PathsMeet(a, b, h, i);
      PathsMeet(a, b, h, SkipHeight(i));
      assert b.At(i).skip != null;
    }
  }

  function Resized(s: seq<BlockIndex?>, n: nat): (r: seq<BlockIndex?>)
    ensures |r| == n && forall i :: 0 <= i < n ==> r[i] == if i < |s| then s[i] else null
  {
    if n <= |s| then s[..n] else s + seq(n - |s|, _ => null)
  }

  /** Where an old chain has an entry of the new one, it has all entries below it. */
  lemma SharedBelow(before: seq<BlockIndex?>, tip: BlockIndex, h: nat)
    requires Coherent(before) && tip.Linked() && h <= tip.height && h < |before| && before[h] == tip.At(h)
    ensures forall i :: 0 <= i <= h ==> before[i] == tip.At(i)
  {
    var last := before[|before| - 1];
    forall i | 0 <= i <= h ensures before[i] == tip.At(i) {
      assert last.At(h) == tip.At(h);
      PathsMeet(last, tip, h, i);
      assert last.At(i) == before[i];
    }
  }

  /** With steps that double, `n` more entries reach back at least `2^(n-2) - 1` steps. */
  lemma {:induction false} LocatorReach(h: nat, step: nat, n: nat)
    requires step > 0 && n >= 10
    ensures var k := |LocatorHeights(h, step, n)|; k >= 2 ==> step * (Pow2(k - 2) - 1) < h
    decreases h
  {
    hide Pow2, LocatorHeights;
    LocatorUnfold(h, step, n);
    if h > 0 {
      LocatorReach(NextHeight(h, step), step * 2, n + 1);
      LocatorUnfold(NextHeight(h, step), step * 2, n + 1);
      var k := |LocatorHeights(h, step, n)|;
      Pow2Step(0);
      if k >= 3 {
        Pow2Step(k - 3);
        ReachStep(step, Pow2(k - 3));
      }
    }
  }

  lemma ReachStep(step: int, p: int)
    ensures step * (2 * p - 1) == step * 2 * (p - 1) + step
  {
  }

  lemma {:induction false} LocatorSlow(h: nat, n: nat)
    requires n <= 10
    ensures h <= 10 - n ==> |LocatorHeights(h, 1, n)| == h + 1
    ensures h > 10 - n ==> |LocatorHeights(h, 1, n)| == 10 - n + |LocatorHeights(h - (10 - n), 1, 10)|
    decreases h
  {
    hide LocatorHeights;
    LocatorUnfold(h, 1, n);
    if h > 0 && n < 10 {
      LocatorSlow(h - 1, n + 1);
    }
  }

  /** A locator has at most twelve entries more than the binary logarithm of the height. */
  lemma LocatorShort(h: nat)
    ensures |LocatorHeights(h, 1, 0)| <= 11 || Pow2(|LocatorHeights(h, 1, 0)| - 12) <= h - 10
  {
    hide LocatorHeights;
    LocatorSlow(h, 0);
    if h > 10 {
      LocatorReach(h - 10, 1, 10);
    }
  }
}

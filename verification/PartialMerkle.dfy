/**
  Partial Merkle trees: a depth-first encoding of some of a block's transaction ids with the hashes needed to recompute the
  Merkle root (section "Partial Merkle branch format" of BIP 37). The pair hash is a function-valued parameter; where it must
  be free of collisions that is a stated hypothesis.
 */
module PartialMerkle {

  import opened Numbers
  import opened Bytes

  const MAX_TRANSACTIONS: nat := 4000000 / 240

  /** A 256-bit hash; zero stands for failure. */
  type Hash = nat

  type PairHash = (Hash, Hash) -> Hash

  ghost predicate Injective(h: PairHash) {
    forall a, b, c, d :: h(a, b) == h(c, d) ==> a == c && b == d
  }

  // ----- the shape of the tree -----

  /** The number of nodes at a height over `n` leaves. */
  function Width(n: nat, h: nat): nat {
    (n + Pow2(h) - 1) / Pow2(h)
  }

  lemma BelowCeiling(d: nat, n: nat, w: nat, pos: nat)
    requires d > 0 && d * w <= n + d - 1 < d * w + d
    ensures pos < w <==> pos * d < n
  {
    if pos < w {
      MulMono(d, pos + 1, w);
      assert d * (pos + 1) == d * pos + d;
    } else {
      MulMono(d, w, pos);
    }
    assert d * pos == pos * d;
  }

  /** Position `pos` exists at height `h` exactly when its first leaf does. */
  lemma InWidth(n: nat, h: nat, pos: nat)
    ensures pos < Width(n, h) <==> pos * Pow2(h) < n
  {
    hide Pow2;
    DivFacts(n + Pow2(h) - 1, Pow2(h));
    BelowCeiling(Pow2(h), n, Width(n, h), pos);
  }

  lemma Doubling(pos: nat, d: nat)
    ensures pos * (2 * d) == (2 * pos) * d
    ensures (pos + 1) * (2 * d) == (2 * pos + 2) * d
    ensures (2 * pos + 1) * d == pos * (2 * d) + d
  {
  }

  /** The left child of an existing node exists; the right one may not. */
  lemma Children(n: nat, h: nat, pos: nat)
    requires h > 0
    ensures pos < Width(n, h) <==> 2 * pos < Width(n, h - 1)
    ensures pos * Pow2(h) == (2 * pos) * Pow2(h - 1)
    ensures (pos + 1) * Pow2(h) == (2 * pos + 2) * Pow2(h - 1)
    ensures (2 * pos + 1) * Pow2(h - 1) == pos * Pow2(h) + Pow2(h - 1)
  {
    hide Pow2, Width;
    InWidth(n, h, pos);
    InWidth(n, h - 1, 2 * pos);
    Pow2Step(h - 1);
    Doubling(pos, Pow2(h - 1));
  }

  function HeightFrom(n: nat, h: nat): (r: nat)
    ensures Width(n, r) <= 1 && h <= r
    ensures forall k :: h <= k < r ==> Width(n, k) > 1
    decreases n - Pow2(h)
  {
    if Width(n, h) > 1 then
      InWidth(n, h, 1);
      HeightFrom(n, h + 1)
    else h
  }

  /** The height of the tree: the first at which a single node is left. */
  function Height(n: nat): (r: nat)
    ensures Width(n, r) <= 1 && (n > 0 ==> Width(n, r) == 1)
    ensures forall k :: 0 <= k < r ==> Width(n, k) > 1
  {
    InWidth(n, HeightFrom(n, 0), 0);
    HeightFrom(n, 0)
  }

  // ----- the full tree -----

  function CalcHash(hash: PairHash, txids: seq<Hash>, h: nat, pos: nat): Hash
    requires pos < Width(|txids|, h)
    decreases h
  {
    if h == 0 then
      txids[pos]
    else
      Children(|txids|, h, pos);
      var left := CalcHash(hash, txids, h - 1, 2 * pos);
      var right := if 2 * pos + 1 < Width(|txids|, h - 1) then CalcHash(hash, txids, h - 1, 2 * pos + 1) else left;
      hash(left, right)
  }

  function Root(hash: PairHash, txids: seq<Hash>): Hash
    requires |txids| > 0
  {
    InWidth(|txids|, Height(|txids|), 0);
    CalcHash(hash, txids, Height(|txids|), 0)
  }

  // ----- the encoding -----

  /** Some leaf in `[lo, hi)` is matched. */
  predicate AnyMatch(match_: seq<bool>, lo: nat, hi: nat) {
    exists p :: lo <= p < hi && p < |match_| && match_[p]
  }

  predicate ParentOfMatch(match_: seq<bool>, h: nat, pos: nat) {
    AnyMatch(match_, pos * Pow2(h), (pos + 1) * Pow2(h))
  }

  /** The flag bits of the subtree at a node, depth first. */
  function Bits(match_: seq<bool>, h: nat, pos: nat): seq<bool>
    decreases h
  {
    var parent := ParentOfMatch(match_, h, pos);
    if h == 0 || !parent then [parent]
    else
      [true] + Bits(match_, h - 1, 2 * pos)
      + if 2 * pos + 1 < Width(|match_|, h - 1) then Bits(match_, h - 1, 2 * pos + 1) else []
  }

  /** The hashes stored for the subtree at a node, depth first. */
  function Hashes(hash: PairHash, txids: seq<Hash>, match_: seq<bool>, h: nat, pos: nat): seq<Hash>
    requires |match_| == |txids| && pos < Width(|txids|, h)
    decreases h
  {
    if h == 0 || !ParentOfMatch(match_, h, pos) then [CalcHash(hash, txids, h, pos)]
    else
      Children(|txids|, h, pos);
      Hashes(hash, txids, match_, h - 1, 2 * pos)
      + if 2 * pos + 1 < Width(|txids|, h - 1) then Hashes(hash, txids, match_, h - 1, 2 * pos + 1) else []
  }

  // ----- decoding -----

  /** What a traversal yields: the node's hash, how far it got, what it found, and whether it met invalid data. */
  datatype Found = Found(hash: Hash, bits: nat, hashes: nat, txids: seq<Hash>, indices: seq<nat>, bad: bool)

  /** Traverses the subtree at a node, starting from the given counts of used bits and hashes. */
  function Extract(hash: PairHash, n: nat, vBits: seq<bool>, vHash: seq<Hash>, h: nat, pos: nat, bits: nat, hashes: nat): Found
    decreases h
  {
    if bits >= |vBits| then Found(0, bits, hashes, [], [], true)
    else if h == 0 || !vBits[bits] then
      if hashes >= |vHash| then Found(0, bits + 1, hashes, [], [], true)
      else if h == 0 && vBits[bits] then Found(vHash[hashes], bits + 1, hashes + 1, [vHash[hashes]], [pos], false)
      else Found(vHash[hashes], bits + 1, hashes + 1, [], [], false)
    else
      var l := Extract(hash, n, vBits, vHash, h - 1, 2 * pos, bits + 1, hashes);
      if 2 * pos + 1 < Width(n, h - 1) then
        var r := Extract(hash, n, vBits, vHash, h - 1, 2 * pos + 1, l.bits, l.hashes);
        Found(hash(l.hash, r.hash), r.bits, r.hashes, l.txids + r.txids, l.indices + r.indices,
              l.bad || r.bad || r.hash == l.hash)
      else
        Found(hash(l.hash, l.hash), l.bits, l.hashes, l.txids, l.indices, l.bad)
  }

  lemma ExtractInner(hash: PairHash, n: nat, vBits: seq<bool>, vHash: seq<Hash>, h: nat, pos: nat, bits: nat, hashes: nat,
                     l: Found, r: Found)
    requires bits < |vBits| && h > 0 && vBits[bits]
    requires l == Extract(hash, n, vBits, vHash, h - 1, 2 * pos, bits + 1, hashes)
    requires r == if 2 * pos + 1 < Width(n, h - 1) then Extract(hash, n, vBits, vHash, h - 1, 2 * pos + 1, l.bits, l.hashes)
                  else Found(l.hash, l.bits, l.hashes, [], [], false)
    ensures Extract(hash, n, vBits, vHash, h, pos, bits, hashes)
            == Found(hash(l.hash, r.hash), r.bits, r.hashes, l.txids + r.txids, l.indices + r.indices,
                     l.bad || r.bad || (2 * pos + 1 < Width(n, h - 1) && r.hash == l.hash))
  {
    hide Width;
  }

  lemma ExtractStop(hash: PairHash, n: nat, vBits: seq<bool>, vHash: seq<Hash>, h: nat, pos: nat, bits: nat, hashes: nat)
    ensures bits >= |vBits| ==>
              Extract(hash, n, vBits, vHash, h, pos, bits, hashes) == Found(0, bits, hashes, [], [], true)
    ensures bits < |vBits| && (h == 0 || !vBits[bits]) && hashes >= |vHash| ==>
              Extract(hash, n, vBits, vHash, h, pos, bits, hashes) == Found(0, bits + 1, hashes, [], [], true)
    ensures bits < |vBits| && (h == 0 || !vBits[bits]) && hashes < |vHash| ==>
              var hit := h == 0 && vBits[bits];
              Extract(hash, n, vBits, vHash, h, pos, bits, hashes)
              == Found(vHash[hashes], bits + 1, hashes + 1, if hit then [vHash[hashes]] else [], if hit then [pos] else [], false)
  {
    hide Width;
  }

  predicate ShapeOk(n: nat, vBits: seq<bool>, vHash: seq<Hash>) {
    0 < n <= MAX_TRANSACTIONS && |vHash| <= n && |vHash| <= |vBits|
  }

  predicate TraversalBad(hash: PairHash, n: nat, vBits: seq<bool>, vHash: seq<Hash>) {
    ShapeOk(n, vBits, vHash) && Extract(hash, n, vBits, vHash, Height(n), 0, 0, 0).bad
  }

  /** The checks around the traversal; zero as the hash on failure. */
  function ExtractAll(hash: PairHash, n: nat, vBits: seq<bool>, vHash: seq<Hash>): (Hash, seq<Hash>, seq<nat>) {
    if !ShapeOk(n, vBits, vHash) then (0, [], [])
    else
      var f := Extract(hash, n, vBits, vHash, Height(n), 0, 0, 0);
      if f.bad || (f.bits + 7) / 8 != (|vBits| + 7) / 8 || f.hashes != |vHash| then (0, f.txids, f.indices)
      else (f.hash, f.txids, f.indices)
  }

  // ----- soundness -----

  /** Each found id is the real one at its index. */
  ghost predicate Genuine(txids: seq<Hash>, found: seq<Hash>, indices: seq<nat>) {
    && |found| == |indices|
    && forall i :: 0 <= i < |found| ==> indices[i] < |txids| && txids[indices[i]] == found[i]
  }

  lemma GenuineAppend(txids: seq<Hash>, found: seq<Hash>, indices: seq<nat>, found': seq<Hash>, indices': seq<nat>)
    requires Genuine(txids, found, indices) && Genuine(txids, found', indices')
    ensures Genuine(txids, found + found', indices + indices')
  {
  }

  lemma WidthZero(n: nat)
    ensures Width(n, 0) == n && Pow2(0) == 1
  {
  }

  lemma {:induction false} ExtractSound(hash: PairHash, txids: seq<Hash>, vBits: seq<bool>, vHash: seq<Hash>,
                                        h: nat, pos: nat, bits: nat, hashes: nat)
    requires Injective(hash) && pos < Width(|txids|, h)
    requires Extract(hash, |txids|, vBits, vHash, h, pos, bits, hashes).hash == CalcHash(hash, txids, h, pos)
    requires !Extract(hash, |txids|, vBits, vHash, h, pos, bits, hashes).bad
    ensures var f := Extract(hash, |txids|, vBits, vHash, h, pos, bits, hashes); Genuine(txids, f.txids, f.indices)
    decreases h
  {
    hide Width, Pow2;
    if h == 0 {
      WidthZero(|txids|);
    } else if bits < |vBits| && vBits[bits] {
      hide Genuine;
      Children(|txids|, h, pos);
      var l := Extract(hash, |txids|, vBits, vHash, h - 1, 2 * pos, bits + 1, hashes);
      ExtractSound(hash, txids, vBits, vHash, h - 1, 2 * pos, bits + 1, hashes);
      if 2 * pos + 1 < Width(|txids|, h - 1) {
        var r := Extract(hash, |txids|, vBits, vHash, h - 1, 2 * pos + 1, l.bits, l.hashes);
        ExtractSound(hash, txids, vBits, vHash, h - 1, 2 * pos + 1, l.bits, l.hashes);
        GenuineAppend(txids, l.txids, l.indices, r.txids, r.indices);
      }
    }
  }

  /** For arbitrary data from anyone: if extraction yields the true root for the true number of transactions, everything it
      reports is really in the block at the reported place. */
  lemma ProofIsSound(hash: PairHash, txids: seq<Hash>, vBits: seq<bool>, vHash: seq<Hash>)
    requires Injective(hash) && |txids| > 0 && Root(hash, txids) != 0
    requires ExtractAll(hash, |txids|, vBits, vHash).0 == Root(hash, txids)
    ensures var (_, found, indices) := ExtractAll(hash, |txids|, vBits, vHash); Genuine(txids, found, indices)
  {
    InWidth(|txids|, Height(|txids|), 0);
    ExtractSound(hash, txids, vBits, vHash, Height(|txids|), 0, 0, 0);
  }

  // ----- round trip -----

  /** The matched positions in `[lo, hi)`, in order. */
  function Matches(match_: seq<bool>, lo: nat, hi: nat): (r: seq<nat>)
    ensures forall p: nat :: p in r <==> lo <= p < hi && p < |match_| && match_[p]
    ensures forall i, j :: 0 <= i < j < |r| ==> r[i] < r[j]
    decreases |match_| - lo
  {
    if lo >= hi || lo >= |match_| then []
    else
      var rest := Matches(match_, lo + 1, hi);
      assert forall i :: 0 <= i < |rest| ==> rest[i] in rest;
      if match_[lo] then [lo] + rest else rest
  }

  lemma {:induction false} MatchesSplit(match_: seq<bool>, lo: nat, mid: nat, hi: nat)
    requires lo <= mid <= hi
    ensures Matches(match_, lo, hi) == Matches(match_, lo, mid) + Matches(match_, mid, hi)
    decreases mid - lo
  {
    if lo == mid {
      assert Matches(match_, lo, mid) == [];
    } else if lo < |match_| {
      MatchesSplit(match_, lo + 1, mid, hi);
    }
  }

  lemma MatchesBeyond(match_: seq<bool>, lo: nat, hi: nat)
    requires lo >= |match_|
    ensures Matches(match_, lo, hi) == []
  {
  }

  lemma NoMatches(match_: seq<bool>, lo: nat, hi: nat)
    ensures AnyMatch(match_, lo, hi) <==> Matches(match_, lo, hi) != []
  {
    var r := Matches(match_, lo, hi);
    if r != [] {
      assert r[0] in r;
      assert AnyMatch(match_, lo, hi);
    }
  }

  ghost predicate Distinct(s: seq<Hash>) {
    forall i, j :: 0 <= i < j < |s| ==> s[i] != s[j]
  }

  /** Under a collision-free hash equal nodes of one height have equal first leaves. */
  lemma {:induction false} FirstLeaf(hash: PairHash, txids: seq<Hash>, h: nat, p: nat, q: nat)
    requires Injective(hash) && p < Width(|txids|, h) && q < Width(|txids|, h)
    requires CalcHash(hash, txids, h, p) == CalcHash(hash, txids, h, q)
    ensures p * Pow2(h) < |txids| && q * Pow2(h) < |txids|
    ensures txids[p * Pow2(h)] == txids[q * Pow2(h)]
  {
    hide Width, Pow2;
    InWidth(|txids|, h, p);
    InWidth(|txids|, h, q);
    if h == 0 {
      WidthZero(|txids|);
    } else {
      Children(|txids|, h, p);
      Children(|txids|, h, q);
      FirstLeaf(hash, txids, h - 1, 2 * p, 2 * q);
    }
  }

  lemma SiblingsDiffer(hash: PairHash, txids: seq<Hash>, h: nat, pos: nat)
    requires Injective(hash) && Distinct(txids) && pos + 1 < Width(|txids|, h)
    ensures CalcHash(hash, txids, h, pos) != CalcHash(hash, txids, h, pos + 1)
  {
    hide Width, Pow2, CalcHash, Injective;
    assert (pos + 1) * Pow2(h) == pos * Pow2(h) + Pow2(h);
    if CalcHash(hash, txids, h, pos) == CalcHash(hash, txids, h, pos + 1) {
      FirstLeaf(hash, txids, h, pos, pos + 1);
      assert false;
    }
  }

  /** `part` is found in `whole` from `at` on. */
  ghost predicate Holds<T>(whole: seq<T>, at: nat, part: seq<T>) {
    at + |part| <= |whole| && whole[at..at + |part|] == part
  }

  lemma HoldsSplit<T>(whole: seq<T>, at: nat, a: seq<T>, b: seq<T>)
    requires Holds(whole, at, a + b)
    ensures Holds(whole, at, a) && Holds(whole, at + |a|, b)
  {
    var part := whole[at..at + |a + b|];
    assert whole[at..at + |a|] == part[..|a|] == a;
    assert whole[at + |a|..at + |a| + |b|] == part[|a|..] == b;
  }

  lemma HoldsFirst<T>(whole: seq<T>, at: nat, x: T)
    requires Holds(whole, at, [x])
    ensures at < |whole| && whole[at] == x
  {
    assert whole[at..at + 1][0] == whole[at];
  }

  lemma OneMatch(match_: seq<bool>, pos: nat)
    requires pos < |match_|
    ensures Matches(match_, pos, pos + 1) == if match_[pos] then [pos] else []
  {
    assert Matches(match_, pos + 1, pos + 1) == [];
  }

  /** The stored data of a subtree stands at the given places. */
  ghost predicate Stored(hash: PairHash, txids: seq<Hash>, match_: seq<bool>, h: nat, pos: nat,
                         vBits: seq<bool>, vHash: seq<Hash>, bits: nat, hashes: nat)
    requires |match_| == |txids| && pos < Width(|txids|, h)
  {
    && Holds(vBits, bits, Bits(match_, h, pos))
    && Holds(vHash, hashes, Hashes(hash, txids, match_, h, pos))
  }

  /** What a traversal of a genuine subtree must yield. */
  ghost predicate ReadBack(f: Found, hash: PairHash, txids: seq<Hash>, match_: seq<bool>, h: nat, pos: nat, bits: nat,
                           hashes: nat)
    requires |match_| == |txids| && pos < Width(|txids|, h)
  {
    && f.hash == CalcHash(hash, txids, h, pos)
    && f.bits == bits + |Bits(match_, h, pos)|
    && f.hashes == hashes + |Hashes(hash, txids, match_, h, pos)|
    && f.indices == Matches(match_, pos * Pow2(h), (pos + 1) * Pow2(h))
    && !f.bad
  }

  lemma ReadStop(hash: PairHash, txids: seq<Hash>, match_: seq<bool>, h: nat, pos: nat,
                 vBits: seq<bool>, vHash: seq<Hash>, bits: nat, hashes: nat)
    requires |match_| == |txids| && pos < Width(|txids|, h)
    requires h == 0 || !ParentOfMatch(match_, h, pos)
    requires Stored(hash, txids, match_, h, pos, vBits, vHash, bits, hashes)
    ensures ReadBack(Extract(hash, |txids|, vBits, vHash, h, pos, bits, hashes), hash, txids, match_, h, pos, bits, hashes)
  {
    hide Width, Pow2, Matches, ParentOfMatch, Extract, Bits, Hashes, CalcHash, Holds;
    ExtractStop(hash, |txids|, vBits, vHash, h, pos, bits, hashes);
    Stop(hash, txids, match_, h, pos);
    HoldsFirst(vBits, bits, ParentOfMatch(match_, h, pos));
    HoldsFirst(vHash, hashes, CalcHash(hash, txids, h, pos));
    StopMatches(match_, h, pos);
  }

  lemma StopMatches(match_: seq<bool>, h: nat, pos: nat)
    requires pos < Width(|match_|, h)
    requires h == 0 || !ParentOfMatch(match_, h, pos)
    ensures Matches(match_, pos * Pow2(h), (pos + 1) * Pow2(h)) == if ParentOfMatch(match_, h, pos) then [pos] else []
  {
    hide Width, Pow2, Matches, AnyMatch;
    NoMatches(match_, pos * Pow2(h), (pos + 1) * Pow2(h));
    if h == 0 {
      WidthZero(|match_|);
      OneMatch(match_, pos);
    }
  }

  lemma MatchesOfChildren(match_: seq<bool>, h: nat, pos: nat)
    requires h > 0
    ensures Matches(match_, pos * Pow2(h), (pos + 1) * Pow2(h))
            == Matches(match_, 2 * pos * Pow2(h - 1), (2 * pos + 1) * Pow2(h - 1))
               + if 2 * pos + 1 < Width(|match_|, h - 1)
                 then Matches(match_, (2 * pos + 1) * Pow2(h - 1), (2 * pos + 2) * Pow2(h - 1)) else []
  {
    hide Matches, Width, Pow2;
    Children(|match_|, h, pos);
    InWidth(|match_|, h - 1, 2 * pos + 1);
    var mid := (2 * pos + 1) * Pow2(h - 1);
    MatchesSplit(match_, pos * Pow2(h), mid, (pos + 1) * Pow2(h));
    if mid >= |match_| {
      MatchesBeyond(match_, mid, (pos + 1) * Pow2(h));
    }
  }

  lemma ReadPair(hash: PairHash, txids: seq<Hash>, match_: seq<bool>, h: nat, pos: nat,
                 vBits: seq<bool>, vHash: seq<Hash>, bits: nat, hashes: nat, l: Found, r: Found)
    requires h > 0 && |match_| == |txids| && pos < Width(|txids|, h) && 2 * pos + 1 < Width(|txids|, h - 1)
    requires ParentOfMatch(match_, h, pos) && bits < |vBits| && vBits[bits]
    requires 2 * pos < Width(|txids|, h - 1)
    requires CalcHash(hash, txids, h - 1, 2 * pos) != CalcHash(hash, txids, h - 1, 2 * pos + 1)
    requires l == Extract(hash, |txids|, vBits, vHash, h - 1, 2 * pos, bits + 1, hashes)
    requires ReadBack(l, hash, txids, match_, h - 1, 2 * pos, bits + 1, hashes)
    requires r == Extract(hash, |txids|, vBits, vHash, h - 1, 2 * pos + 1, l.bits, l.hashes)
    requires ReadBack(r, hash, txids, match_, h - 1, 2 * pos + 1, l.bits, l.hashes)
    ensures ReadBack(Extract(hash, |txids|, vBits, vHash, h, pos, bits, hashes), hash, txids, match_, h, pos, bits, hashes)
  {
    hide Width, Pow2, Matches, ParentOfMatch, Extract, Bits, Hashes, CalcHash;
    MatchesOfChildren(match_, h, pos);
    var br, hr := Parts(hash, txids, match_, h, pos);
    ExtractInner(hash, |txids|, vBits, vHash, h, pos, bits, hashes, l, r);
    CalcHashStep(hash, txids, h, pos);
  }

  lemma CalcHashStep(hash: PairHash, txids: seq<Hash>, h: nat, pos: nat)
    requires h > 0 && pos < Width(|txids|, h) && 2 * pos < Width(|txids|, h - 1)
    ensures CalcHash(hash, txids, h, pos)
            == hash(CalcHash(hash, txids, h - 1, 2 * pos),
                    CalcHash(hash, txids, h - 1, if 2 * pos + 1 < Width(|txids|, h - 1) then 2 * pos + 1 else 2 * pos))
  {
    hide Width;
  }

  lemma ReadLone(hash: PairHash, txids: seq<Hash>, match_: seq<bool>, h: nat, pos: nat,
                 vBits: seq<bool>, vHash: seq<Hash>, bits: nat, hashes: nat, l: Found)
    requires h > 0 && |match_| == |txids| && pos < Width(|txids|, h) && !(2 * pos + 1 < Width(|txids|, h - 1))
    requires ParentOfMatch(match_, h, pos) && bits < |vBits| && vBits[bits]
    requires 2 * pos < Width(|txids|, h - 1)
    requires l == Extract(hash, |txids|, vBits, vHash, h - 1, 2 * pos, bits + 1, hashes)
    requires ReadBack(l, hash, txids, match_, h - 1, 2 * pos, bits + 1, hashes)
    ensures ReadBack(Extract(hash, |txids|, vBits, vHash, h, pos, bits, hashes), hash, txids, match_, h, pos, bits, hashes)
  {
    hide Width, Pow2, Matches, ParentOfMatch, Extract, Bits, Hashes, CalcHash;
    MatchesOfChildren(match_, h, pos);
    var br, hr := Parts(hash, txids, match_, h, pos);
    ExtractInner(hash, |txids|, vBits, vHash, h, pos, bits, hashes, l, Found(l.hash, l.bits, l.hashes, [], [], false));
    CalcHashStep(hash, txids, h, pos);
  }

  /** The data of a node with matches below is a set flag and the data of its children. */
  lemma Parts(hash: PairHash, txids: seq<Hash>, match_: seq<bool>, h: nat, pos: nat) returns (br: seq<bool>, hr: seq<Hash>)
    requires h > 0 && |match_| == |txids| && pos < Width(|txids|, h) && ParentOfMatch(match_, h, pos)
    requires 2 * pos < Width(|txids|, h - 1)
    ensures Bits(match_, h, pos) == [true] + (Bits(match_, h - 1, 2 * pos) + br)
    ensures Hashes(hash, txids, match_, h, pos) == Hashes(hash, txids, match_, h - 1, 2 * pos) + hr
    ensures 2 * pos + 1 < Width(|txids|, h - 1) ==>
              br == Bits(match_, h - 1, 2 * pos + 1) && hr == Hashes(hash, txids, match_, h - 1, 2 * pos + 1)
    ensures !(2 * pos + 1 < Width(|txids|, h - 1)) ==> br == [] && hr == []
  {
    hide Width, Pow2, ParentOfMatch, CalcHash;
    br, hr := [], [];
    if 2 * pos + 1 < Width(|txids|, h - 1) {
      br, hr := Bits(match_, h - 1, 2 * pos + 1), Hashes(hash, txids, match_, h - 1, 2 * pos + 1);
    }
  }

  lemma Stop(hash: PairHash, txids: seq<Hash>, match_: seq<bool>, h: nat, pos: nat)
    requires |match_| == |txids| && pos < Width(|txids|, h)
    requires h == 0 || !ParentOfMatch(match_, h, pos)
    ensures Bits(match_, h, pos) == [ParentOfMatch(match_, h, pos)]
    ensures Hashes(hash, txids, match_, h, pos) == [CalcHash(hash, txids, h, pos)]
  {
    hide Width, ParentOfMatch, CalcHash;
  }

  lemma Regroup<T>(a: seq<T>, b: seq<T>, c: seq<T>, d: seq<T>)
    ensures a + (b + (c + d)) == a + b + c + d && a + [] == a && [] + c == c && c + [] == c
    ensures a + (c + d) == a + c + d
  {
  }

  lemma StoredChildren(hash: PairHash, txids: seq<Hash>, match_: seq<bool>, h: nat, pos: nat,
                       vBits: seq<bool>, vHash: seq<Hash>, bits: nat, hashes: nat)
    requires h > 0 && |match_| == |txids| && pos < Width(|txids|, h) && ParentOfMatch(match_, h, pos)
    requires 2 * pos < Width(|txids|, h - 1)
    requires Stored(hash, txids, match_, h, pos, vBits, vHash, bits, hashes)
    ensures bits < |vBits| && vBits[bits]
    ensures Stored(hash, txids, match_, h - 1, 2 * pos, vBits, vHash, bits + 1, hashes)
    ensures 2 * pos + 1 < Width(|txids|, h - 1) ==>
      Stored(hash, txids, match_, h - 1, 2 * pos + 1, vBits, vHash, bits + 1 + |Bits(match_, h - 1, 2 * pos)|,
             hashes + |Hashes(hash, txids, match_, h - 1, 2 * pos)|)
  {
    hide Width, Pow2, ParentOfMatch, CalcHash, Bits, Hashes, Holds;
    var (bl, hl) := (Bits(match_, h - 1, 2 * pos), Hashes(hash, txids, match_, h - 1, 2 * pos));
    var br, hr := Parts(hash, txids, match_, h, pos);
    HoldsSplit(vBits, bits, [true], bl + br);
    HoldsFirst(vBits, bits, true);
    HoldsSplit(vBits, bits + 1, bl, br);
    HoldsSplit(vHash, hashes, hl, hr);
  }

  /** Reading back what was built for a subtree gives its hash and its matched positions, and consumes all of it. */
  lemma {:induction false} RoundTrip(hash: PairHash, txids: seq<Hash>, match_: seq<bool>, h: nat, pos: nat,
                                     vBits: seq<bool>, vHash: seq<Hash>, bits: nat, hashes: nat)
    requires Injective(hash) && Distinct(txids) && |match_| == |txids| && pos < Width(|txids|, h)
    requires Stored(hash, txids, match_, h, pos, vBits, vHash, bits, hashes)
    ensures ReadBack(Extract(hash, |txids|, vBits, vHash, h, pos, bits, hashes), hash, txids, match_, h, pos, bits, hashes)
    decreases h
  {
    hide Width, Pow2, AnyMatch, Injective, Distinct, Matches, Stored, Extract, Bits, Hashes, ParentOfMatch, CalcHash;
    if h == 0 || !ParentOfMatch(match_, h, pos) {
      ReadStop(hash, txids, match_, h, pos, vBits, vHash, bits, hashes);
    } else {
      var n := |txids|;
      Children(n, h, pos);
      StoredChildren(hash, txids, match_, h, pos, vBits, vHash, bits, hashes);
      var l := Extract(hash, n, vBits, vHash, h - 1, 2 * pos, bits + 1, hashes);
      RoundTrip(hash, txids, match_, h - 1, 2 * pos, vBits, vHash, bits + 1, hashes);
      if 2 * pos + 1 < Width(n, h - 1) {
        var r := Extract(hash, n, vBits, vHash, h - 1, 2 * pos + 1, l.bits, l.hashes);
        RoundTrip(hash, txids, match_, h - 1, 2 * pos + 1, vBits, vHash, l.bits, l.hashes);
        SiblingsDiffer(hash, txids, h - 1, 2 * pos);
        ReadPair(hash, txids, match_, h, pos, vBits, vHash, bits, hashes, l, r);
      } else {
        ReadLone(hash, txids, match_, h, pos, vBits, vHash, bits, hashes, l);
      }
    }
  }

  // ----- sizes -----

  /** At most one stored hash for each leaf below the node. */
  lemma {:induction false} HashPerLeaf(hash: PairHash, txids: seq<Hash>, match_: seq<bool>, h: nat, pos: nat)
    requires |match_| == |txids| && pos < Width(|txids|, h)
    ensures 1 <= |Hashes(hash, txids, match_, h, pos)| <= Min((pos + 1) * Pow2(h), |txids|) - pos * Pow2(h)
    decreases h
  {
    hide Width, Pow2, ParentOfMatch, CalcHash;
    InWidth(|txids|, h, pos);
    assert (pos + 1) * Pow2(h) == pos * Pow2(h) + Pow2(h);
    if h > 0 && ParentOfMatch(match_, h, pos) {
      Children(|txids|, h, pos);
      var br, hr := Parts(hash, txids, match_, h, pos);
      hide Hashes;
      HashPerLeaf(hash, txids, match_, h - 1, 2 * pos);
      InWidth(|txids|, h - 1, 2 * pos + 1);
      if 2 * pos + 1 < Width(|txids|, h - 1) {
        HashPerLeaf(hash, txids, match_, h - 1, 2 * pos + 1);
      }
    }
  }

  lemma PathBound(h: nat, l: nat, r: nat, a: nat, b: nat)
    requires h > 0 && l + r > 0 && a <= 1 + l * (h - 1) && b <= 1 + r * (h - 1)
    ensures a + b <= 1 + (l + r) * h
  {
    assert (l + r) * h == l * (h - 1) + r * (h - 1) + l + r;
  }

  lemma MatchCount(match_: seq<bool>, h: nat, pos: nat)
    ensures ParentOfMatch(match_, h, pos) <==> |Matches(match_, pos * Pow2(h), (pos + 1) * Pow2(h))| > 0
  {
    hide Matches, Pow2;
    NoMatches(match_, pos * Pow2(h), (pos + 1) * Pow2(h));
  }

  /** At most one stored hash more than a path for each match below the node. */
  lemma {:induction false} HashPerPath(hash: PairHash, txids: seq<Hash>, match_: seq<bool>, h: nat, pos: nat)
    requires |match_| == |txids| && pos < Width(|txids|, h)
    ensures |Hashes(hash, txids, match_, h, pos)| <= 1 + |Matches(match_, pos * Pow2(h), (pos + 1) * Pow2(h))| * h
    decreases h
  {
    hide Width, Pow2, ParentOfMatch, CalcHash, Matches;
    if h == 0 || !ParentOfMatch(match_, h, pos) {
    } else {
      Children(|txids|, h, pos);
      var br, hr := Parts(hash, txids, match_, h, pos);
      hide Hashes;
      MatchesOfChildren(match_, h, pos);
      MatchCount(match_, h, pos);
      var hl := |Hashes(hash, txids, match_, h - 1, 2 * pos)|;
      var l := |Matches(match_, 2 * pos * Pow2(h - 1), (2 * pos + 1) * Pow2(h - 1))|;
      HashPerPath(hash, txids, match_, h - 1, 2 * pos);
      if 2 * pos + 1 < Width(|txids|, h - 1) {
        HashPerPath(hash, txids, match_, h - 1, 2 * pos + 1);
        PathBound(h, l, |Matches(match_, (2 * pos + 1) * Pow2(h - 1), (2 * pos + 2) * Pow2(h - 1))|, hl, |hr|);
      } else {
        PathBound(h, l, 0, hl, 0);
      }
    }
  }

  function Min(a: int, b: int): int {
    if a < b then a else b
  }

  /** The visited nodes that have one child. */
  function Lone(match_: seq<bool>, h: nat, pos: nat): nat
    decreases h
  {
    if h == 0 || !ParentOfMatch(match_, h, pos) then 0
    else if 2 * pos + 1 < Width(|match_|, h - 1) then Lone(match_, h - 1, 2 * pos) + Lone(match_, h - 1, 2 * pos + 1)
    else 1 + Lone(match_, h - 1, 2 * pos)
  }

  /** A full binary tree has one inner node fewer than leaves; each one-child node adds a flag. */
  lemma {:induction false} BitCount(hash: PairHash, txids: seq<Hash>, match_: seq<bool>, h: nat, pos: nat)
    requires |match_| == |txids| && pos < Width(|txids|, h)
    ensures |Bits(match_, h, pos)| == 2 * |Hashes(hash, txids, match_, h, pos)| - 1 + Lone(match_, h, pos)
    decreases h
  {
    hide Width, Pow2, ParentOfMatch, CalcHash;
    if h > 0 && ParentOfMatch(match_, h, pos) {
      Children(|txids|, h, pos);
      BitCount(hash, txids, match_, h - 1, 2 * pos);
      if 2 * pos + 1 < Width(|txids|, h - 1) {
        BitCount(hash, txids, match_, h - 1, 2 * pos + 1);
      }
    }
  }

  /** A subtree whose leaves all exist has no one-child node. */
  lemma {:induction false} FullHasNoLone(match_: seq<bool>, h: nat, pos: nat)
    requires (pos + 1) * Pow2(h) <= |match_|
    ensures Lone(match_, h, pos) == 0
  {
    hide Width, Pow2, ParentOfMatch;
    if h > 0 && ParentOfMatch(match_, h, pos) {
      Children(|match_|, h, pos);
      InWidth(|match_|, h - 1, 2 * pos + 1);
      FullHasNoLone(match_, h - 1, 2 * pos);
      FullHasNoLone(match_, h - 1, 2 * pos + 1);
    }
  }

  lemma HalfWidth(n: nat, h: nat)
    requires n > 0 && h > 0
    ensures 0 < Width(n, h) && 2 * (Width(n, h) - 1) < Width(n, h - 1) <= 2 * Width(n, h)
  {
    hide Pow2, Width;
    InWidth(n, h, 0);
    Children(n, h, Width(n, h) - 1);
    Children(n, h, Width(n, h));
  }

  /** The last node of level `g` has one child and a match below it. */
  predicate LoneEdge(match_: seq<bool>, g: nat)
    requires |match_| > 0
  {
    && g > 0 && Width(|match_|, g - 1) % 2 == 1
    && InEdge(match_, g)
  }

  predicate InEdge(match_: seq<bool>, g: nat)
    requires |match_| > 0
  {
    ParentOfMatch(match_, g, Last(|match_|, g))
  }

  function Last(n: nat, g: nat): (r: nat)
    requires n > 0
    ensures r + 1 == Width(n, g)
  {
    InWidth(n, g, 0);
    Width(n, g) - 1
  }

  lemma {:induction false} EdgeInside(match_: seq<bool>, g: nat, h: nat)
    requires |match_| > 0 && g <= h && InEdge(match_, g)
    ensures InEdge(match_, h)
    decreases h - g
  {
    hide Width, Pow2;
    var n := |match_|;
    if g < h {
      var (p, q) := (Last(n, g), Last(n, g + 1));
      HalfWidth(n, g + 1);
      Children(n, g + 1, q);
      InWidth(n, g + 1, q + 1);
      assert 2 * q * Pow2(g) <= p * Pow2(g) by { MulMono(Pow2(g), 2 * q, p); }
      assert ParentOfMatch(match_, g + 1, q);
      EdgeInside(match_, g + 1, h);
    }
  }

  /** Down the right edge, one-child nodes are visited exactly where the level below is odd and has a match at its end. */
  lemma {:induction false} LoneOnEdge(match_: seq<bool>, h: nat)
    requires |match_| > 0
    ensures Lone(match_, h, Last(|match_|, h)) == 0 <==> forall g :: 0 < g <= h ==> !LoneEdge(match_, g)
    decreases h
  {
    hide Width, Pow2, ParentOfMatch;
    var n := |match_|;
    var pos := Last(n, h);
    if h == 0 {
    } else if !InEdge(match_, h) {
      forall g | 0 < g <= h && InEdge(match_, g) ensures false {
        EdgeInside(match_, g, h);
      }
    } else {
      HalfWidth(n, h);
      InWidth(n, h - 1, 2 * pos + 1);
      LoneOnEdge(match_, h - 1);
      if 2 * pos + 1 < Width(n, h - 1) {
        assert Last(n, h - 1) == 2 * pos + 1;
        FullHasNoLone(match_, h - 1, 2 * pos);
        assert !LoneEdge(match_, h);
      } else {
        assert LoneEdge(match_, h);
      }
    }
  }

  lemma {:induction false} LoneAtMost(match_: seq<bool>, h: nat, pos: nat)
    requires pos < Width(|match_|, h)
    ensures Lone(match_, h, pos) <= h
  {
    hide Width, Pow2, ParentOfMatch;
    if h > 0 && ParentOfMatch(match_, h, pos) {
      Children(|match_|, h, pos);
      if 2 * pos + 1 < Width(|match_|, h - 1) {
        InWidth(|match_|, h - 1, 2 * pos + 1);
        FullHasNoLone(match_, h - 1, 2 * pos);
        LoneAtMost(match_, h - 1, 2 * pos + 1);
      } else {
        LoneAtMost(match_, h - 1, 2 * pos);
      }
    }
  }

  lemma TopIsLast(n: nat)
    requires n > 0
    ensures Last(n, Height(n)) == 0 && 0 < Width(n, Height(n)) && n <= Pow2(Height(n))
  {
    InWidth(n, Height(n), 0);
    InWidth(n, Height(n), 1);
  }

  /** The stored hashes are no more than the transactions, and no more than one and a path for each match. */
  lemma HashBound(hash: PairHash, txids: seq<Hash>, match_: seq<bool>)
    requires |match_| == |txids| > 0
    ensures 1 <= |Hashes(hash, txids, match_, Height(|txids|), 0)| <= |txids|
    ensures |Hashes(hash, txids, match_, Height(|txids|), 0)| <= 1 + |Matches(match_, 0, |txids|)| * Height(|txids|)
  {
    hide Width, Pow2, Height, Hashes, Matches;
    TopIsLast(|txids|);
    HashPerLeaf(hash, txids, match_, Height(|txids|), 0);
    HashPerPath(hash, txids, match_, Height(|txids|), 0);
    AllMatches(match_, Pow2(Height(|txids|)));
  }

  lemma AllMatches(match_: seq<bool>, hi: nat)
    requires |match_| <= hi
    ensures Matches(match_, 0, hi) == Matches(match_, 0, |match_|)
  {
    MatchesSplit(match_, 0, |match_|, hi);
  }

  /** There are at most twice as many flags as hashes, less one, exactly when no level of odd width has a match at its end;
      there are never more than that plus the height. */
  lemma BitBound(hash: PairHash, txids: seq<Hash>, match_: seq<bool>)
    requires |match_| == |txids| > 0
    ensures |Bits(match_, Height(|txids|), 0)| <= 2 * |Hashes(hash, txids, match_, Height(|txids|), 0)| - 1
            <==> forall g :: 0 < g <= Height(|txids|) ==> !LoneEdge(match_, g)
    ensures |Hashes(hash, txids, match_, Height(|txids|), 0)| <= |Bits(match_, Height(|txids|), 0)|
    ensures |Bits(match_, Height(|txids|), 0)| < 2 * |Hashes(hash, txids, match_, Height(|txids|), 0)| + Height(|txids|)
  {
    hide Width, Pow2, Height, Hashes, Bits, LoneEdge;
    TopIsLast(|txids|);
    BitCount(hash, txids, match_, Height(|txids|), 0);
    HashPerLeaf(hash, txids, match_, Height(|txids|), 0);
    LoneOnEdge(match_, Height(|txids|));
    LoneAtMost(match_, Height(|txids|), 0);
  }

  /** With the third of three transactions matched there are more flags than twice the hashes less one. */
  lemma TooManyFlags(hash: PairHash, txids: seq<Hash>)
    requires |txids| == 3
    ensures var match_ := [false, false, true];
            |Bits(match_, Height(3), 0)| > 2 * |Hashes(hash, txids, match_, Height(3), 0)| - 1
  {
    hide Bits, Hashes;
    var match_ := [false, false, true];
    assert Pow2(1) == 2;
    assert Width(3, 0) == 3 && Width(3, 1) == 2;
    assert match_[2];
    assert AnyMatch(match_, 2, 4);
    assert LoneEdge(match_, 1);
    assert Height(3) >= 1;
    BitBound(hash, txids, match_);
  }

  // ----- the size in bytes -----

  /** The levels up to `h` whose last node has one child and a match below it. */
  function LoneEdges(match_: seq<bool>, h: nat): nat
    requires |match_| > 0
  {
    if h == 0 then 0 else LoneEdges(match_, h - 1) + if LoneEdge(match_, h) then 1 else 0
  }

  lemma {:induction false} NoEdges(match_: seq<bool>, h: nat)
    requires |match_| > 0 && !InEdge(match_, h)
    ensures LoneEdges(match_, h) == 0
  {
    hide Width, Pow2, ParentOfMatch, InEdge;
    if h > 0 {
      if InEdge(match_, h - 1) {
        EdgeInside(match_, h - 1, h);
      } else {
        NoEdges(match_, h - 1);
      }
    }
  }

  /** The visited nodes with one child are counted by the levels down the right edge. */
  lemma {:induction false} LoneIsEdges(match_: seq<bool>, h: nat)
    requires |match_| > 0
    ensures Lone(match_, h, Last(|match_|, h)) == LoneEdges(match_, h)
  {
    hide Width, Pow2, ParentOfMatch;
    var n := |match_|;
    var pos := Last(n, h);
    if h > 0 {
      if InEdge(match_, h) {
        HalfWidth(n, h);
        InWidth(n, h - 1, 2 * pos + 1);
        LoneIsEdges(match_, h - 1);
        if 2 * pos + 1 < Width(n, h - 1) {
          assert Last(n, h - 1) == 2 * pos + 1;
          FullHasNoLone(match_, h - 1, 2 * pos);
          assert !LoneEdge(match_, h);
        } else {
          assert LoneEdge(match_, h);
        }
      } else {
        NoEdges(match_, h);
      }
    }
  }

  /** The length of the prefix that tells how many elements follow. */
  function PrefixSize(count: nat): nat {
    if count < 253 then 1
    else if count < 0x1_0000 then 3
    else if count < 0x1_0000_0000 then 5
    else 9
  }

  function FlagBytes(bits: nat): nat {
    (bits + 7) / 8
  }

  /** The serialized length of a tree with so many hashes and flags. */
  function SizeInBytes(hashes: nat, bits: nat): nat {
    4 + PrefixSize(hashes) + 32 * hashes + PrefixSize(FlagBytes(bits)) + FlagBytes(bits)
  }

  /** The documented limit, `10 + ceil(32.25 * hashes)`. */
  function SizeLimit(hashes: nat): nat {
    10 + (129 * hashes + 3) / 4
  }

  /** The flags take 253 bytes or more, and the levels with a lone child push them over a quarter of a byte per hash. */
  predicate Overflows(hashes: nat, lone: nat) {
    2 * hashes + lone > 2017 && lone > 1 + 2 * ((4 - hashes % 4) % 4)
  }

  lemma LimitExactly(hashes: nat, lone: nat)
    requires 1 <= hashes <= MAX_TRANSACTIONS && lone <= 15
    ensures SizeInBytes(hashes, 2 * hashes - 1 + lone) <= SizeLimit(hashes) <==> !Overflows(hashes, lone)
    ensures SizeInBytes(hashes, 2 * hashes - 1 + lone) <= SizeLimit(hashes) + 2
  {
    var quarter := (hashes + 3) / 4;
    assert (129 * hashes + 3) / 4 == 32 * hashes + quarter;
    var bytes := FlagBytes(2 * hashes - 1 + lone);
    assert 4 * quarter - hashes == (4 - hashes % 4) % 4;
    assert bytes <= quarter <==> lone <= 1 + 2 * (4 * quarter - hashes);
    assert bytes <= quarter + 2;
  }

  lemma LowTree(n: nat)
    requires 0 < n <= MAX_TRANSACTIONS
    ensures Height(n) <= 15
  {
    hide Height;
    assert Pow2(5) == 32 && Pow2(10) == 1024 && Pow2(15) == 32768;
    InWidth(n, 15, 1);
  }

  /** The documented limit on the size holds exactly when the levels with a lone child do not carry the flags over it, and is
      never passed by more than two bytes. */
  lemma SizeBound(hash: PairHash, txids: seq<Hash>, match_: seq<bool>)
    requires |match_| == |txids| && 0 < |txids| <= MAX_TRANSACTIONS
    ensures var h := Height(|txids|);
            var (hashes, bits) := (|Hashes(hash, txids, match_, h, 0)|, |Bits(match_, h, 0)|);
            && (SizeInBytes(hashes, bits) <= SizeLimit(hashes) <==> !Overflows(hashes, LoneEdges(match_, h)))
            && SizeInBytes(hashes, bits) <= SizeLimit(hashes) + 2
  {
    hide Width, Pow2, Height, Hashes, Bits, Lone, LoneEdges, SizeInBytes, SizeLimit, Overflows;
    var h := Height(|txids|);
    TopIsLast(|txids|);
    BitCount(hash, txids, match_, h, 0);
    LoneIsEdges(match_, h);
    LoneAtMost(match_, h, 0);
    LowTree(|txids|);
    HashPerLeaf(hash, txids, match_, h, 0);
    HashBound(hash, txids, match_);
    LimitExactly(|Hashes(hash, txids, match_, h, 0)|, Lone(match_, h, 0));
  }

  /** With every transaction matched, every transaction id is stored. */
  lemma {:induction false} EveryLeafStored(hash: PairHash, txids: seq<Hash>, match_: seq<bool>, h: nat, pos: nat)
    requires |match_| == |txids| && pos < Width(|txids|, h) && forall p :: 0 <= p < |match_| ==> match_[p]
    ensures |Hashes(hash, txids, match_, h, pos)| == Min((pos + 1) * Pow2(h), |txids|) - pos * Pow2(h)
    decreases h
  {
    hide Width, Pow2, ParentOfMatch, CalcHash, Hashes;
    InWidth(|txids|, h, pos);
    assert (pos + 1) * Pow2(h) == pos * Pow2(h) + Pow2(h);
    EveryNodeMatched(match_, h, pos);
    if h > 0 {
      Children(|txids|, h, pos);
      var br, hr := Parts(hash, txids, match_, h, pos);
      EveryLeafStored(hash, txids, match_, h - 1, 2 * pos);
      InWidth(|txids|, h - 1, 2 * pos + 1);
      if 2 * pos + 1 < Width(|txids|, h - 1) {
        EveryLeafStored(hash, txids, match_, h - 1, 2 * pos + 1);
      }
    } else {
      Stop(hash, txids, match_, h, pos);
      Pow2Step(0);
    }
  }

  lemma EveryNodeMatched(match_: seq<bool>, h: nat, pos: nat)
    requires pos < Width(|match_|, h) && forall p :: 0 <= p < |match_| ==> match_[p]
    ensures ParentOfMatch(match_, h, pos)
  {
    hide Width, Pow2;
    InWidth(|match_|, h, pos);
    assert match_[pos * Pow2(h)];
    assert (pos + 1) * Pow2(h) == pos * Pow2(h) + Pow2(h);
  }

  /** With every transaction matched, the lone children are on the levels above one of odd width. */
  lemma OddWidths(match_: seq<bool>, g: nat)
    requires |match_| > 0 && g > 0 && forall p :: 0 <= p < |match_| ==> match_[p]
    ensures LoneEdge(match_, g) <==> Width(|match_|, g - 1) % 2 == 1
  {
    hide Width, Pow2, ParentOfMatch;
    EveryNodeMatched(match_, g, Last(|match_|, g));
  }

  lemma WidthsOf1025(g: nat)
    requires g <= 11
    ensures Width(1025, g) == [1025, 513, 257, 129, 65, 33, 17, 9, 5, 3, 2, 1][g]
  {
    assert Pow2(0) == 1 && Pow2(1) == 2 && Pow2(2) == 4 && Pow2(3) == 8;
    assert Pow2(4) == 16 && Pow2(5) == 32 && Pow2(6) == 64 && Pow2(7) == 128;
    assert Pow2(8) == 256 && Pow2(9) == 512 && Pow2(10) == 1024 && Pow2(11) == 2048;
  }

  lemma {:induction false} EdgesOf1025(match_: seq<bool>, g: nat)
    requires |match_| == 1025 && g <= 11 && forall p :: 0 <= p < |match_| ==> match_[p]
    ensures LoneEdges(match_, g) == if g <= 10 then g else 10
  {
    hide Width, LoneEdge;
    if g > 0 {
      EdgesOf1025(match_, g - 1);
      OddWidths(match_, g);
      WidthsOf1025(g - 1);
    }
  }

  /** With all of 1025 transactions matched the documented limit is passed. */
  lemma OverTheLimit(hash: PairHash, txids: seq<Hash>)
    requires |txids| == 1025
    ensures var match_ := seq(1025, _ => true);
            var (hashes, bits) := (Hashes(hash, txids, match_, Height(1025), 0), Bits(match_, Height(1025), 0));
            SizeInBytes(|hashes|, |bits|) > SizeLimit(|hashes|)
  {
    hide Hashes, Bits, Width, Height, LoneEdges, SizeInBytes, SizeLimit;
    var match_ := seq(1025, _ => true);
    var h := Height(1025);
    WidthsOf1025(11);
    forall g: nat | g <= 10 ensures Width(1025, g) > 1 {
      WidthsOf1025(g);
    }
    assert h == 11;
    EdgesOf1025(match_, h);
    EveryLeafStored(hash, txids, match_, h, 0);
    assert Pow2(11) == 2048;
    SizeBound(hash, txids, match_);
  }

  // ----- flag bits as bytes -----

  method Pack(bits: seq<bool>) returns (bytes: seq<bv8>)
    ensures |bytes| == (|bits| + 7) / 8
    ensures forall p: nat :: p < 8 * |bytes| ==> (FlagAt(bytes, p) <==> p < |bits| && bits[p])
  {
    hide BitSet, Mask, OrBit;
    forall i: nat | i < 8 {
      AllOrNothing(i);
    }
    var vBytes := new bv8[(|bits| + 7) / 8](_ => 0);
    var p := 0;
    while p < |bits|
      invariant 0 <= p <= |bits|
      invariant forall q: nat :: q < 8 * vBytes.Length ==> (FlagAt(vBytes[..], q) <==> q < p && bits[q])
    {
      ghost var before := vBytes[..];
      vBytes[p / 8] := OrBit(vBytes[p / 8], p % 8, bits[p]);
      PackStep(before, vBytes[..], bits, p);
      p := p + 1;
    }
    bytes := vBytes[..];
  }

  lemma PackStep(before: seq<bv8>, after: seq<bv8>, bits: seq<bool>, p: nat)
    requires p < |bits| <= 8 * |before|
    requires after == before[p / 8 := OrBit(before[p / 8], p % 8, bits[p])]
    requires forall q: nat :: q < 8 * |before| ==> (FlagAt(before, q) <==> q < p && bits[q])
    ensures forall q: nat :: q < 8 * |after| ==> (FlagAt(after, q) <==> q < p + 1 && bits[q])
  {
    hide BitSet, Mask, FlagAt, OrBit;
    forall q: nat | q < 8 * |after| ensures FlagAt(after, q) <==> q < p + 1 && bits[q] {
      assert FlagAt(before, q) <==> q < p && bits[q];
      FlagSet(before, after, bits[p], p, q);
    }
  }

  method Unpack(bytes: seq<bv8>) returns (bits: seq<bool>)
    ensures |bits| == 8 * |bytes| && forall p: nat :: p < |bits| ==> bits[p] == FlagAt(bytes, p)
  {
    var vBits := new bool[8 * |bytes|];
    var p := 0;
    while p < vBits.Length
      invariant 0 <= p <= vBits.Length
      invariant forall q: nat :: q < p ==> vBits[q] == FlagAt(bytes, q)
    {
      vBits[p] := (bytes[p / 8] & Mask(p % 8)) != 0;
      p := p + 1;
    }
    bits := vBits[..];
  }

  // ----- the tree object -----

  method TreeHeight(n: nat) returns (h: nat)
    ensures h == Height(n)
  {
    h := 0;
    while Width(n, h) > 1
      invariant HeightFrom(n, h) == Height(n)
      decreases n - Pow2(h)
    {
      InWidth(n, h, 1);
      h := h + 1;
    }
  }

  /** Packing and unpacking returns the flags followed by fewer than eight cleared ones. */
  method Repack(bits: seq<bool>) returns (r: seq<bool>)
    ensures |bits| <= |r| && r[..|bits|] == bits && |r| == 8 * ((|bits| + 7) / 8)
    ensures forall p :: |bits| <= p < |r| ==> !r[p]
  {
    var bytes := Pack(bits);
    r := Unpack(bytes);
    assert forall p: nat :: p < |r| ==> r[p] == (p < |bits| && bits[p]);
  }

  class PartialMerkleTree {
    const hash: PairHash
    var nTransactions: nat
    var vBits: seq<bool>
    var vHash: seq<Hash>
    var fBad: bool

    /** Encodes a nonempty list of transaction ids and the mask that selects some of them. */
    constructor Build(hash: PairHash, txids: seq<Hash>, match_: seq<bool>)
      requires |match_| == |txids| > 0
      ensures this.hash == hash && nTransactions == |txids| && !fBad
      ensures vBits == Bits(match_, Height(|txids|), 0)
      ensures vHash == Hashes(hash, txids, match_, Height(|txids|), 0)
    {
      hide Width, Pow2, Height, Bits, Hashes, CalcHash;
      this.hash := hash;
      nTransactions := |txids|;
      fBad := false;
      vBits, vHash := [], [];
      new;
      TopIsLast(|txids|);
      var h := TreeHeight(|txids|);
      TraverseAndBuild(h, 0, txids, match_);
    }

    /** Takes over what was received. */
    constructor Receive(hash: PairHash, n: nat, vHash: seq<Hash>, vBits: seq<bool>)
      ensures this.hash == hash && nTransactions == n && this.vHash == vHash && this.vBits == vBits && !fBad
    {
      this.hash := hash;
      nTransactions := n;
      this.vHash, this.vBits, fBad := vHash, vBits, false;
    }

    method TraverseAndBuild(h: nat, pos: nat, txids: seq<Hash>, match_: seq<bool>)
      requires |match_| == |txids| == nTransactions && pos < Width(|txids|, h)
      modifies this`vBits, this`vHash
      ensures vBits == old(vBits) + Bits(match_, h, pos)
      ensures vHash == old(vHash) + Hashes(hash, txids, match_, h, pos)
      decreases h
    {
      hide Width, Pow2, CalcHash, Bits, Hashes, ParentOfMatch;
      var parent := ComputeParentOfMatch(match_, h, pos);
      vBits := vBits + [parent];
      if h == 0 || !parent {
        Stop(hash, txids, match_, h, pos);
        vHash := vHash + [CalcHash(hash, txids, h, pos)];
      } else {
        Children(|txids|, h, pos);
        ghost var br, hr := Parts(hash, txids, match_, h, pos);
        ghost var (bl, hl) := (Bits(match_, h - 1, 2 * pos), Hashes(hash, txids, match_, h - 1, 2 * pos));
        TraverseAndBuild(h - 1, 2 * pos, txids, match_);
        if 2 * pos + 1 < Width(nTransactions, h - 1) {
          TraverseAndBuild(h - 1, 2 * pos + 1, txids, match_);
        }
        Regroup(old(vBits), [true], bl, br);
        Regroup(old(vHash), [], hl, hr);
      }
    }

    /** Scans the leaves below a node. */
    method ComputeParentOfMatch(match_: seq<bool>, h: nat, pos: nat) returns (parent: bool)
      requires |match_| == nTransactions
      ensures parent == ParentOfMatch(match_, h, pos)
    {
      parent := false;
      var p := pos * Pow2(h);
      assert (pos + 1) * Pow2(h) == p + Pow2(h);
      while p < (pos + 1) * Pow2(h) && p < nTransactions
        invariant pos * Pow2(h) <= p <= (pos + 1) * Pow2(h)
        invariant parent <==> AnyMatch(match_, pos * Pow2(h), p)
        decreases nTransactions - p
      {
        parent := parent || match_[p];
        p := p + 1;
      }
    }

    method TraverseAndExtract(h: nat, pos: nat, bits: nat, hashes: nat, vMatch: seq<Hash>, vnIndex: seq<nat>)
      returns (r: Hash, bits': nat, hashes': nat, vMatch': seq<Hash>, vnIndex': seq<nat>)
      modifies this`fBad
      ensures var f := Extract(hash, nTransactions, vBits, vHash, h, pos, bits, hashes);
              && r == f.hash && bits' == f.bits && hashes' == f.hashes
              && vMatch' == vMatch + f.txids && vnIndex' == vnIndex + f.indices
              && fBad == (old(fBad) || f.bad)
      decreases h
    {
      hide Width, Pow2, Extract;
      ExtractStop(hash, nTransactions, vBits, vHash, h, pos, bits, hashes);
      bits', hashes', vMatch', vnIndex' := bits, hashes, vMatch, vnIndex;
      if bits >= |vBits| {
        fBad := true;
        return 0, bits', hashes', vMatch', vnIndex';
      }
      var parent := vBits[bits];
      bits' := bits' + 1;
      if h == 0 || !parent {
        if hashes >= |vHash| {
          fBad := true;
          return 0, bits', hashes', vMatch', vnIndex';
        }
        r := vHash[hashes];
        hashes' := hashes' + 1;
        if h == 0 && parent {
          vMatch' := vMatch' + [r];
          vnIndex' := vnIndex' + [pos];
        }
      } else {
        ghost var l := Extract(hash, nTransactions, vBits, vHash, h - 1, 2 * pos, bits', hashes');
        ghost var r' := if 2 * pos + 1 < Width(nTransactions, h - 1)
                        then Extract(hash, nTransactions, vBits, vHash, h - 1, 2 * pos + 1, l.bits, l.hashes)
                        else Found(l.hash, l.bits, l.hashes, [], [], false);
        ExtractInner(hash, nTransactions, vBits, vHash, h, pos, bits, hashes, l, r');
        var left, right;
        left, bits', hashes', vMatch', vnIndex' := TraverseAndExtract(h - 1, 2 * pos, bits', hashes', vMatch', vnIndex');
        if 2 * pos + 1 < Width(nTransactions, h - 1) {
          right, bits', hashes', vMatch', vnIndex' := TraverseAndExtract(h - 1, 2 * pos + 1, bits', hashes', vMatch', vnIndex');
          if right == left {
            fBad := true;
          }
        } else {
          right := left;
        }
        r := hash(left, right);
        Regroup(vMatch, [], l.txids, r'.txids);
        Regroup(vnIndex, [], l.indices, r'.indices);
      }
    }

    /** The root, or zero on failure. The matches start afresh; the indices are added to those given. */
    method ExtractMatches(vnIndex: seq<nat>) returns (root: Hash, vMatch: seq<Hash>, vnIndex': seq<nat>)
      modifies this`fBad
      ensures var (r, m, i) := ExtractAll(hash, nTransactions, vBits, vHash);
              root == (if fBad then 0 else r) && vMatch == m && vnIndex' == vnIndex + i
      ensures fBad == (old(fBad) || TraversalBad(hash, nTransactions, vBits, vHash))
    {
      hide Extract, Height;
      vMatch, vnIndex' := [], vnIndex;
      if nTransactions == 0 {
        return 0, vMatch, vnIndex';
      }
      if nTransactions > MAX_TRANSACTIONS {
        return 0, vMatch, vnIndex';
      }
      if |vHash| > nTransactions {
        return 0, vMatch, vnIndex';
      }
      if |vBits| < |vHash| {
        return 0, vMatch, vnIndex';
      }
      var h := TreeHeight(nTransactions);
      var bits, hashes;
      root, bits, hashes, vMatch, vnIndex' := TraverseAndExtract(h, 0, 0, 0, vMatch, vnIndex');
      if fBad {
        return 0, vMatch, vnIndex';
      }
      if (bits + 7) / 8 != (|vBits| + 7) / 8 {
        return 0, vMatch, vnIndex';
      }
      if hashes != |vHash| {
        return 0, vMatch, vnIndex';
      }
    }
  }

  /** Extracting from what was built and repacked gives the root, and exactly the matched transactions, unless there are too many
      transactions to accept. */
  lemma BuiltExtracts(hash: PairHash, txids: seq<Hash>, match_: seq<bool>, vBits: seq<bool>)
    requires Injective(hash) && Distinct(txids) && |match_| == |txids| > 0
    requires Holds(vBits, 0, Bits(match_, Height(|txids|), 0))
    requires |vBits| == 8 * ((|Bits(match_, Height(|txids|), 0)| + 7) / 8)
    ensures var n := |txids|;
            var vHash := Hashes(hash, txids, match_, Height(n), 0);
            var (root, found, indices) := ExtractAll(hash, n, vBits, vHash);
            && (n > MAX_TRANSACTIONS ==> root == 0)
            && (n <= MAX_TRANSACTIONS ==>
                  && root == Root(hash, txids)
                  && indices == Matches(match_, 0, n) && Genuine(txids, found, indices)
                  && !TraversalBad(hash, n, vBits, vHash))
  {
    hide Width, Pow2, Height, Bits, Hashes, Extract, Matches, CalcHash, Injective, Distinct;
    var n := |txids|;
    var vHash := Hashes(hash, txids, match_, Height(n), 0);
    assert Holds(vHash, 0, vHash);
    TopIsLast(n);
    HashBound(hash, txids, match_);
    BitBound(hash, txids, match_);
    RoundTrip(hash, txids, match_, Height(n), 0, vBits, vHash, 0, 0);
    ExtractSound(hash, txids, vBits, vHash, Height(n), 0, 0, 0);
    AllMatches(match_, Pow2(Height(n)));
  }

  /** A server builds and sends a tree, a client receives it and extracts. */
  method SendAndExtract(hash: PairHash, txids: seq<Hash>, match_: seq<bool>)
    returns (root: Hash, found: seq<Hash>, indices: seq<nat>)
    requires |match_| == |txids| > 0
    ensures Injective(hash) && Distinct(txids) && |txids| <= MAX_TRANSACTIONS ==>
              root == Root(hash, txids) && indices == Matches(match_, 0, |txids|) && Genuine(txids, found, indices)
    ensures |txids| > MAX_TRANSACTIONS ==> root == 0
  {
    hide Width, Height, Bits, Hashes, Extract, Matches, Root, Genuine, Injective, Distinct;
    var tree := new PartialMerkleTree.Build(hash, txids, match_);
    var bits := Repack(tree.vBits);
    var received := new PartialMerkleTree.Receive(hash, tree.nTransactions, tree.vHash, bits);
    root, found, indices := received.ExtractMatches([]);
    if Injective(hash) && Distinct(txids) {
      BuiltExtracts(hash, txids, match_, bits);
    }
  }
}

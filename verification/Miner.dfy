/**
  Selecting transaction packages for a new block. The memory pool is a finite graph of transactions that know their in-pool
  ancestors; the assembler takes packages (a transaction with its missing ancestors), keeps figures for the descendants of
  what it took, and stops when the block is full or nothing pays enough.

  Fee rates only decide which candidate is looked at next and when to stop, so those decisions are arbitrary here: the
  statements hold for every order of candidates and every fee policy.
 */
module Miner {

  const WITNESS_SCALE_FACTOR: int := 4
  const MAX_BLOCK_SIGOPS_COST: int := 80000
  const MAX_CONSECUTIVE_FAILURES: int := 1000
  const RESERVED_WEIGHT: int := 4000
  const RESERVED_SIGOPS: int := 400

  type TxId = nat

  /** A memory pool entry: its own figures, all its in-pool ancestors, and the cached figures of the whole package. */
  datatype Tx = Tx(size: nat, weight: nat, sigops: nat, ancestors: set<TxId>,
                   sizeWithAncestors: int, sigopsWithAncestors: int)

  type Pool = map<TxId, Tx>

  /** Figures of a modified package. */
  datatype Figures = Figures(size: int, sigops: int)

  type Modified = map<TxId, Figures>

  // ----- sums -----

  ghost function Sum(s: set<TxId>, f: TxId -> int): int
    decreases |s|
  {
    if s == {} then 0
    else
      var x :| x in s;
      f(x) + Sum(s - {x}, f)
  }

  lemma {:induction false} SumRemove(s: set<TxId>, f: TxId -> int, x: TxId)
    requires x in s
    ensures Sum(s, f) == f(x) + Sum(s - {x}, f)
    decreases |s|
  {
    var y :| y in s && Sum(s, f) == f(y) + Sum(s - {y}, f);
    if y != x {
      SumRemove(s - {y}, f, x);
      SumRemove(s - {x}, f, y);
      assert s - {y} - {x} == s - {x} - {y};
    }
  }

  lemma SumAdd(s: set<TxId>, f: TxId -> int, x: TxId)
    requires x !in s
    ensures Sum(s + {x}, f) == f(x) + Sum(s, f)
  {
    SumRemove(s + {x}, f, x);
    assert s + {x} - {x} == s;
  }

  lemma {:induction false} SumUnion(a: set<TxId>, b: set<TxId>, f: TxId -> int)
    requires a !! b
    ensures Sum(a + b, f) == Sum(a, f) + Sum(b, f)
    decreases |b|
  {
    if b == {} {
      assert a + b == a;
    } else {
      var x :| x in b;
      SumRemove(b, f, x);
      SumRemove(a + b, f, x);
      assert a + b - {x} == a + (b - {x});
      SumUnion(a, b - {x}, f);
    }
  }

  lemma {:induction false} SumNonNegative(s: set<TxId>, f: TxId -> int)
    requires forall x :: x in s ==> f(x) >= 0
    ensures Sum(s, f) >= 0
    decreases |s|
  {
    if s != {} {
      var x :| x in s;
      SumRemove(s, f, x);
      SumNonNegative(s - {x}, f);
    }
  }

  lemma SumMore(a: set<TxId>, b: set<TxId>, f: TxId -> int)
    requires a <= b && forall x :: x in b - a ==> f(x) >= 0
    ensures Sum(a, f) <= Sum(b, f)
  {
    assert b == a + (b - a);
    SumUnion(a, b - a, f);
    SumNonNegative(b - a, f);
  }

  lemma {:induction false} SumScaled(s: set<TxId>, f: TxId -> int, g: TxId -> int, k: int)
    requires forall x :: x in s ==> f(x) <= k * g(x)
    ensures Sum(s, f) <= k * Sum(s, g)
    decreases |s|
  {
    if s != {} {
      var x :| x in s;
      SumRemove(s, f, x);
      SumRemove(s, g, x);
      SumScaled(s - {x}, f, g, k);
      assert k * (g(x) + Sum(s - {x}, g)) == k * g(x) + k * Sum(s - {x}, g);
    }
  }

  function Size(pool: Pool): TxId -> int {
    x => if x in pool then pool[x].size else 0
  }

  function SigOps(pool: Pool): TxId -> int {
    x => if x in pool then pool[x].sigops else 0
  }

  function Weight(pool: Pool): TxId -> int {
    x => if x in pool then pool[x].weight else 0
  }

  // ----- the pool -----

  /** What the memory pool guarantees: ancestors are in the pool, closed and acyclic, cached figures are exact, and a
      transaction's weight is at most four times its virtual size. */
  ghost predicate PoolOk(pool: Pool) {
    forall x :: x in pool ==>
      && pool[x].ancestors <= pool.Keys
      && x !in pool[x].ancestors
      && (forall y :: y in pool[x].ancestors ==> pool[y].ancestors <= pool[x].ancestors)
      && pool[x].sizeWithAncestors == Sum(pool[x].ancestors + {x}, Size(pool))
      && pool[x].sigopsWithAncestors == Sum(pool[x].ancestors + {x}, SigOps(pool))
      && pool[x].weight <= WITNESS_SCALE_FACTOR * pool[x].size
  }

  predicate Closed(pool: Pool, s: set<TxId>) {
    s <= pool.Keys && forall x :: x in s ==> pool[x].ancestors <= s
  }

  /** The package of `x`: itself and those of its ancestors that are not in the block. */
  function Package(pool: Pool, x: TxId, inBlock: set<TxId>): set<TxId>
    requires x in pool
  {
    (pool[x].ancestors - inBlock) + {x}
  }

  function Descendants(pool: Pool, x: TxId): set<TxId> {
    set d | d in pool && (d == x || x in pool[d].ancestors)
  }

  lemma ProperSubsetSize(a: set<TxId>, b: set<TxId>, y: TxId)
    requires a <= b && y in b && y !in a
    ensures |a| < |b|
  {
    assert b == a + (b - a - {y}) + {y};
  }

  /** The number of ancestors grows along every dependency. */
  lemma AncestorCount(pool: Pool, x: TxId, y: TxId)
    requires PoolOk(pool) && x in pool && y in pool[x].ancestors
    ensures |pool[y].ancestors| < |pool[x].ancestors|
  {
    ProperSubsetSize(pool[y].ancestors, pool[x].ancestors, y);
  }

  /** A package completes a closed block. */
  lemma PackageCloses(pool: Pool, x: TxId, inBlock: set<TxId>)
    requires PoolOk(pool) && x in pool && Closed(pool, inBlock)
    ensures Closed(pool, inBlock + Package(pool, x, inBlock))
  {
    var all := inBlock + Package(pool, x, inBlock);
    forall y | y in all
      ensures y in pool && pool[y].ancestors <= all
    {
      if y in pool[x].ancestors {
        assert pool[y].ancestors <= pool[x].ancestors;
      }
    }
  }

  // ----- figures of modified packages -----

  /** The figures of a set of transactions. */
  ghost function FiguresOf(pool: Pool, s: set<TxId>): Figures {
    Figures(Sum(s, Size(pool)), Sum(s, SigOps(pool)))
  }

  /** The figures that `x` should have: the sums over itself and its ancestors outside the block. */
  ghost function TrueFigures(pool: Pool, x: TxId, inBlock: set<TxId>): Figures
    requires x in pool
  {
    FiguresOf(pool, Package(pool, x, inBlock))
  }

  function CachedFigures(pool: Pool, x: TxId): Figures
    requires x in pool
  {
    Figures(pool[x].sizeWithAncestors, pool[x].sigopsWithAncestors)
  }

  ghost predicate AtLeast(a: Figures, b: Figures) {
    a.size >= b.size && a.sigops >= b.sigops
  }

  function Less(a: Figures, tx: Tx): Figures {
    Figures(a.size - tx.size, a.sigops - tx.sigops)
  }

  function Minus(a: Figures, b: Figures): Figures {
    Figures(a.size - b.size, a.sigops - b.sigops)
  }

  lemma FiguresNone(pool: Pool, a: Figures)
    ensures Minus(a, FiguresOf(pool, {})) == a
  {
  }

  lemma FiguresAdd(pool: Pool, a: Figures, s: set<TxId>, y: TxId)
    requires y in pool && y !in s
    ensures Minus(a, FiguresOf(pool, s + {y})) == Less(Minus(a, FiguresOf(pool, s)), pool[y])
  {
    SumAdd(s, Size(pool), y);
    SumAdd(s, SigOps(pool), y);
  }

  lemma FiguresMinus(pool: Pool, s: set<TxId>, t: set<TxId>)
    requires t <= s
    ensures Minus(FiguresOf(pool, s), FiguresOf(pool, t)) == FiguresOf(pool, s - t)
  {
    assert s == (s - t) + t;
    SumUnion(s - t, t, Size(pool));
    SumUnion(s - t, t, SigOps(pool));
  }

  lemma FiguresMore(pool: Pool, s: set<TxId>, t: set<TxId>)
    requires s <= t
    ensures AtLeast(FiguresOf(pool, t), FiguresOf(pool, s))
  {
    SumMore(s, t, Size(pool));
    SumMore(s, t, SigOps(pool));
  }

  /** The transactions counted for `x` when those that entered the block after it was `since` have been taken off. */
  ghost function Counting(pool: Pool, x: TxId, inBlock: set<TxId>, since: set<TxId>): set<TxId>
    requires x in pool
  {
    (pool[x].ancestors - (inBlock - since)) + {x}
  }

  ghost function Believed(pool: Pool, x: TxId, inBlock: set<TxId>, since: set<TxId>): Figures
    requires x in pool
  {
    FiguresOf(pool, Counting(pool, x, inBlock, since))
  }

  lemma BelievedTrue(pool: Pool, x: TxId, inBlock: set<TxId>, since: set<TxId>)
    requires x in pool && pool[x].ancestors * since == {}
    ensures Believed(pool, x, inBlock, since) == TrueFigures(pool, x, inBlock)
  {
    assert Counting(pool, x, inBlock, since) == Package(pool, x, inBlock);
  }

  /** An untouched candidate's cached figures are exact. */
  lemma UntouchedExact(pool: Pool, x: TxId, inBlock: set<TxId>, since: set<TxId>)
    requires PoolOk(pool) && x in pool && pool[x].ancestors * (inBlock - since) == {}
    ensures CachedFigures(pool, x) == Believed(pool, x, inBlock, since)
    ensures since == {} ==> CachedFigures(pool, x) == TrueFigures(pool, x, inBlock)
  {
    assert Counting(pool, x, inBlock, since) == pool[x].ancestors + {x};
    if since == {} {
      BelievedTrue(pool, x, inBlock, since);
    }
  }

  /** Cached figures cover what is counted, and what is counted covers whatever is missing. */
  lemma CachedAtLeast(pool: Pool, x: TxId, inBlock: set<TxId>, since: set<TxId>)
    requires PoolOk(pool) && x in pool
    ensures AtLeast(CachedFigures(pool, x), Believed(pool, x, inBlock, since))
    ensures AtLeast(Believed(pool, x, inBlock, since), TrueFigures(pool, x, inBlock))
  {
    hide AtLeast;
    assert CachedFigures(pool, x) == FiguresOf(pool, pool[x].ancestors + {x});
    hide PoolOk;
    FiguresMore(pool, Counting(pool, x, inBlock, since), pool[x].ancestors + {x});
    FiguresMore(pool, Package(pool, x, inBlock), Counting(pool, x, inBlock, since));
  }

  /** Moving missing ancestors into the block takes their figures off. */
  lemma FiguresStep(pool: Pool, x: TxId, inBlock: set<TxId>, added: set<TxId>, since: set<TxId>)
    requires x in pool && x !in pool[x].ancestors && added !! inBlock && since <= inBlock
    ensures Minus(Believed(pool, x, inBlock, since), FiguresOf(pool, pool[x].ancestors * added))
            == Believed(pool, x, inBlock + added, since)
  {
    var c := Counting(pool, x, inBlock, since);
    assert Counting(pool, x, inBlock + added, since) == c - pool[x].ancestors * added;
    FiguresMinus(pool, c, pool[x].ancestors * added);
  }

  // ----- the modified entries -----

  /** For each candidate that failed as a modified entry: the block at its first and at its last failure. */
  datatype Failure = Failure(first: set<TxId>, last: set<TxId>)

  type Failures = map<TxId, Failure>

  ghost function Since(failures: Failures, x: TxId): set<TxId> {
    if x in failures then failures[x].last else {}
  }

  /** The modified entries that belong to a block: the candidates with an ancestor that entered the block after their last
      failure, with figures that leave out those ancestors and no others. */
  ghost function ModifiedOf(pool: Pool, inBlock: set<TxId>, failures: Failures): Modified {
    map x | x in pool && x !in inBlock && pool[x].ancestors * (inBlock - Since(failures, x)) != {}
      :: Believed(pool, x, inBlock, Since(failures, x))
  }

  /** The bookkeeping invariant: the block is closed and the modified entries are exactly those that belong to it. */
  ghost predicate BooksOk(pool: Pool, inBlock: set<TxId>, modified: Modified, failures: Failures) {
    && Closed(pool, inBlock)
    && (forall x :: x in failures ==> failures[x].last <= inBlock)
    && modified == ModifiedOf(pool, inBlock, failures)
  }

  // ----- the effect of adding transactions on the figures of their descendants -----

  /** One added transaction `y`: every descendant outside `added` gets an entry with the figures of `y` taken off. */
  function TakeOff(pool: Pool, modified: Modified, added: set<TxId>, y: TxId): Modified
    requires y in pool
  {
    LoweredIn(pool, modified, y, Descendants(pool, y) - added)
  }

  /** The entries after taking `y` off for the transactions in `s`. */
  function LoweredIn(pool: Pool, modified: Modified, y: TxId, s: set<TxId>): Modified
    requires y in pool && s <= pool.Keys
  {
    map d | d in modified.Keys + s :: if d in s then Lowered(pool, modified, y, d) else modified[d]
  }

  lemma LoweredStep(pool: Pool, modified: Modified, y: TxId, s: set<TxId>, d: TxId)
    requires y in pool && d in pool && s <= pool.Keys && d !in s
    ensures LoweredIn(pool, modified, y, s + {d}) == LoweredIn(pool, modified, y, s)[d := Lowered(pool, modified, y, d)]
    ensures d in LoweredIn(pool, modified, y, s) <==> d in modified
    ensures d in modified ==> LoweredIn(pool, modified, y, s)[d] == modified[d]
  {
    hide Lowered;
  }

  /** The figures of `d`, so far or as cached, without those of `y`. */
  function Lowered(pool: Pool, modified: Modified, y: TxId, d: TxId): Figures
    requires y in pool && d in pool
  {
    Less(Start(pool, modified, d), pool[y])
  }

  function Start(pool: Pool, modified: Modified, d: TxId): Figures
    requires d in pool
  {
    if d in modified then modified[d] else CachedFigures(pool, d)
  }

  /** The transactions with an ancestor in `s`. */
  function Under(pool: Pool, s: set<TxId>): set<TxId> {
    set d | d in pool && pool[d].ancestors * s != {}
  }

  /** The entries when, of the transactions `added`, those in `done` have been taken off all their descendants. */
  ghost function Reduced(pool: Pool, modified: Modified, added: set<TxId>, done: set<TxId>): Modified
    requires modified.Keys <= pool.Keys
  {
    map d | d in modified.Keys + (Under(pool, done) - added)
      :: if d in added then modified[d]
         else Minus(Start(pool, modified, d), FiguresOf(pool, pool[d].ancestors * done))
  }

  lemma ReducedNone(pool: Pool, modified: Modified, added: set<TxId>)
    requires modified.Keys <= pool.Keys
    ensures Reduced(pool, modified, added, {}) == modified
  {
    hide FiguresOf, Minus;
    assert Under(pool, {}) == {};
    forall d | d in modified
      ensures pool[d].ancestors * {} == {} && Minus(modified[d], FiguresOf(pool, pool[d].ancestors * {})) == modified[d]
    {
      assert pool[d].ancestors * {} == {};
      FiguresNone(pool, modified[d]);
    }
  }

  /** Taking one more transaction off its descendants. */
  lemma TakeOffStep(pool: Pool, modified: Modified, added: set<TxId>, done: set<TxId>, y: TxId)
    requires modified.Keys <= pool.Keys && y in pool && y in added && y !in done
    ensures TakeOff(pool, Reduced(pool, modified, added, done), added, y) == Reduced(pool, modified, added, done + {y})
  {
    hide FiguresOf, Minus, Less, CachedFigures;
    var before, after := Reduced(pool, modified, added, done), Reduced(pool, modified, added, done + {y});
    var taken := TakeOff(pool, before, added, y);
    assert taken.Keys == after.Keys by {
      forall d
        ensures d in taken <==> d in after
      {
        if d in pool {
          UnderMore(pool, done, y, d);
        }
      }
    }
    forall d | d in after
      ensures taken[d] == after[d]
    {
      TakeOffOne(pool, modified, added, done, y, d);
    }
  }

  lemma UnderMore(pool: Pool, done: set<TxId>, y: TxId, d: TxId)
    requires d in pool
    ensures d in Under(pool, done + {y}) <==> d in Under(pool, done) || y in pool[d].ancestors
    ensures d in Descendants(pool, y) <==> d == y || y in pool[d].ancestors
  {
    var a := pool[d].ancestors;
    if y in a {
      assert y in a * (done + {y});
    } else {
      assert a * (done + {y}) == a * done;
    }
  }

  lemma TakeOffOne(pool: Pool, modified: Modified, added: set<TxId>, done: set<TxId>, y: TxId, d: TxId)
    requires modified.Keys <= pool.Keys && y in pool && y in added && y !in done
    requires d in Reduced(pool, modified, added, done + {y})
    ensures d in TakeOff(pool, Reduced(pool, modified, added, done), added, y)
    ensures TakeOff(pool, Reduced(pool, modified, added, done), added, y)[d] == Reduced(pool, modified, added, done + {y})[d]
  {
    hide FiguresOf, Minus, Less, CachedFigures;
    var before := Reduced(pool, modified, added, done);
    UnderMore(pool, done, y, d);
    if d !in added {
      var a := pool[d].ancestors;
      if y in a {
        assert a * (done + {y}) == a * done + {y};
        FiguresAdd(pool, Start(pool, modified, d), a * done, y);
        if d !in before {
          assert a * done == {};
          FiguresNone(pool, Start(pool, modified, d));
        }
      } else {
        assert a * (done + {y}) == a * done;
      }
    }
  }

  /** Adding a package to the block and taking it off its descendants gives the entries that belong to the larger block. */
  lemma BooksAdded(pool: Pool, base: set<TxId>, added: set<TxId>, modified: Modified, failures: Failures)
    requires PoolOk(pool) && BooksOk(pool, base, modified, failures) && added <= pool.Keys && added !! base
    requires Closed(pool, base + added)
    ensures (modified - added).Keys <= pool.Keys
    ensures BooksOk(pool, base + added, Reduced(pool, modified - added, added, added), failures)
  {
    hide PoolOk, Reduced, ModifiedOf, Closed;
    ModifiedKeys(pool, base, failures);
    ModifiedKeys(pool, base + added, failures);
    ReducedKeys(pool, modified - added, added, added);
    var r, m := Reduced(pool, modified - added, added, added), ModifiedOf(pool, base + added, failures);
    forall d | d in pool
      ensures d in r <==> d in m
      ensures d in m ==> r[d] == m[d]
    {
      BooksAddedOne(pool, base, added, modified, failures, d);
    }
    assert r == m;
  }

  lemma ModifiedKeys(pool: Pool, inBlock: set<TxId>, failures: Failures)
    ensures ModifiedOf(pool, inBlock, failures).Keys <= pool.Keys
  {
  }

  lemma ReducedKeys(pool: Pool, modified: Modified, added: set<TxId>, done: set<TxId>)
    requires modified.Keys <= pool.Keys
    ensures Reduced(pool, modified, added, done).Keys <= pool.Keys
  {
  }

  lemma BooksAddedOne(pool: Pool, base: set<TxId>, added: set<TxId>, modified: Modified, failures: Failures, d: TxId)
    requires PoolOk(pool) && BooksOk(pool, base, modified, failures) && added <= pool.Keys && added !! base && d in pool
    ensures (modified - added).Keys <= pool.Keys
    ensures var r, m := Reduced(pool, modified - added, added, added), ModifiedOf(pool, base + added, failures);
            (d in r <==> d in m) && (d in m ==> r[d] == m[d])
  {
    hide FiguresOf, Minus, CachedFigures, Believed, Reduced, ModifiedOf, PoolOk;
    ModifiedKeys(pool, base, failures);
    var a, since := pool[d].ancestors, Since(failures, d);
    assert since <= base;
    assert a * (base + added - since) == a * (base - since) + a * added;
    InReduced(pool, modified - added, added, d);
    InModified(pool, base, failures, d);
    InModified(pool, base + added, failures, d);
    if d in base {
      assert a * added == {};
    } else if d !in added {
      NotOwnAncestor(pool, d);
      FiguresStep(pool, d, base, added, since);
      if d !in modified {
        UntouchedExact(pool, d, base, since);
      }
    }
  }

  lemma NotOwnAncestor(pool: Pool, d: TxId)
    requires PoolOk(pool) && d in pool
    ensures d !in pool[d].ancestors
  {
  }

  lemma InReduced(pool: Pool, modified: Modified, added: set<TxId>, d: TxId)
    requires modified.Keys <= pool.Keys && d in pool
    ensures var r := Reduced(pool, modified, added, added);
            && (d in r <==> d in modified || (pool[d].ancestors * added != {} && d !in added))
            && (d in r && d !in added ==>
                  r[d] == Minus(Start(pool, modified, d), FiguresOf(pool, pool[d].ancestors * added)))
  {
    hide FiguresOf, Minus, Start;
  }

  lemma InModified(pool: Pool, inBlock: set<TxId>, failures: Failures, d: TxId)
    requires d in pool
    ensures var m := ModifiedOf(pool, inBlock, failures);
            && (d in m <==> d !in inBlock && pool[d].ancestors * (inBlock - Since(failures, d)) != {})
            && (d in m ==> m[d] == Believed(pool, d, inBlock, Since(failures, d)))
  {
    hide Believed;
  }

  // ----- ordering a package -----

  /** The order of transactions in a package: fewer ancestors first, ties by id. */
  predicate Precedes(pool: Pool, a: TxId, b: TxId)
    requires a in pool && b in pool
  {
    |pool[a].ancestors| < |pool[b].ancestors| || (|pool[a].ancestors| == |pool[b].ancestors| && a <= b)
  }

  lemma PrecedesTotal(pool: Pool, a: TxId, b: TxId)
    requires a in pool && b in pool
    ensures Precedes(pool, a, a) && (Precedes(pool, a, b) || Precedes(pool, b, a))
  {
  }

  lemma PrecedesTrans(pool: Pool, a: TxId, b: TxId, c: TxId)
    requires a in pool && b in pool && c in pool && Precedes(pool, a, b) && Precedes(pool, b, c)
    ensures Precedes(pool, a, c)
  {
  }

  lemma {:induction false} FirstExists(pool: Pool, s: set<TxId>) returns (first: TxId)
    requires s <= pool.Keys && s != {}
    ensures first in s && forall y :: y in s ==> Precedes(pool, first, y)
    decreases |s|
  {
    hide Precedes;
    var z :| z in s;
    first := z;
    if s - {z} != {} {
      var x := FirstExists(pool, s - {z});
      PrecedesTotal(pool, x, z);
      first := if Precedes(pool, x, z) then x else z;
      forall y | y in s
        ensures Precedes(pool, first, y)
      {
        if y == z {
          PrecedesTotal(pool, z, z);
        } else if first == z {
          PrecedesTrans(pool, z, x, y);
        }
      }
    } else {
      assert s == {z};
      PrecedesTotal(pool, z, z);
    }
  }

  ghost predicate Distinct(s: seq<TxId>) {
    forall i, j :: 0 <= i < j < |s| ==> s[i] != s[j]
  }

  ghost function Elements(s: seq<TxId>): set<TxId> {
    set x | x in s
  }

  lemma ElementsAppend(a: seq<TxId>, b: seq<TxId>)
    ensures Elements(a + b) == Elements(a) + Elements(b)
    ensures |b| == 1 ==> Elements(b) == {b[0]}
  {
    forall x
      ensures x in Elements(a + b) <==> x in Elements(a) + Elements(b)
    {
      if x in b {
        var i :| 0 <= i < |b| && b[i] == x;
        assert (a + b)[|a| + i] == x;
      }
      if x in a {
        var i :| 0 <= i < |a| && a[i] == x;
        assert (a + b)[i] == x;
      }
    }
  }

  /** `sorted` lists part of a package in order, and everything in it precedes the rest. */
  ghost predicate SortedPart(pool: Pool, sorted: seq<TxId>, rest: set<TxId>) {
    && rest <= pool.Keys && Distinct(sorted) && Elements(sorted) !! rest
    && (forall i :: 0 <= i < |sorted| ==> sorted[i] in pool)
    && (forall i, j :: 0 <= i < j < |sorted| ==> Precedes(pool, sorted[i], sorted[j]))
    && (forall i, y :: 0 <= i < |sorted| && y in rest ==> Precedes(pool, sorted[i], y))
  }

  lemma SortStep(pool: Pool, sorted: seq<TxId>, rest: set<TxId>, x: TxId)
    requires SortedPart(pool, sorted, rest) && x in rest && forall y :: y in rest ==> Precedes(pool, x, y)
    ensures SortedPart(pool, sorted + [x], rest - {x})
    ensures Elements(sorted + [x]) == Elements(sorted) + {x}
  {
    hide Precedes;
    ElementsAppend(sorted, [x]);
    var more := sorted + [x];
    InElements(sorted);
    forall i, j | 0 <= i < j < |more|
      ensures more[i] != more[j] && more[i] in pool && more[j] in pool && Precedes(pool, more[i], more[j])
    {
      assert sorted[i] in Elements(sorted);
    }
  }

  method SortForBlock(pool: Pool, package: set<TxId>) returns (sorted: seq<TxId>)
    requires package <= pool.Keys
    ensures Elements(sorted) == package && Distinct(sorted)
    ensures forall i, j :: 0 <= i < j < |sorted| ==>
              sorted[i] in pool && sorted[j] in pool && Precedes(pool, sorted[i], sorted[j])
  {
    hide Precedes, Elements;
    sorted := [];
    var rest := package;
    SortStart(pool, package);
    while rest != {}
      invariant rest <= package && Elements(sorted) == package - rest && SortedPart(pool, sorted, rest)
      decreases |rest|
    {
      ghost var first := FirstExists(pool, rest);
      var x :| x in rest && forall y :: y in rest ==> Precedes(pool, x, y);
      SortStep(pool, sorted, rest, x);
      sorted := sorted + [x];
      rest := rest - {x};
    }
  }

  lemma SortStart(pool: Pool, package: set<TxId>)
    requires package <= pool.Keys
    ensures Elements([]) == package - package && SortedPart(pool, [], package)
  {
    assert Elements([]) == {};
  }

  /** Each transaction of the block from place `from` on comes after all its ancestors. */
  ghost predicate AncestorsFirst(pool: Pool, vtx: seq<TxId>, from: nat) {
    forall i :: from <= i < |vtx| ==> vtx[i] in pool && pool[vtx[i]].ancestors <= Elements(vtx[..i])
  }

  /** A sorted package keeps the block in order. */
  lemma PackageInOrder(pool: Pool, vtx: seq<TxId>, inBlock: set<TxId>, x: TxId, sorted: seq<TxId>, from: nat)
    requires PoolOk(pool) && x in pool && Closed(pool, inBlock) && Elements(vtx) == inBlock && from <= |vtx|
    requires AncestorsFirst(pool, vtx, from)
    requires Elements(sorted) == Package(pool, x, inBlock) && Distinct(sorted)
    requires forall i :: 0 <= i < |sorted| ==> sorted[i] in pool
    requires forall i, j :: 0 <= i < j < |sorted| ==> Precedes(pool, sorted[i], sorted[j])
    ensures AncestorsFirst(pool, vtx + sorted, from)
  {
    hide PoolOk, Closed, Precedes;
    var all := vtx + sorted;
    forall i | from <= i < |all|
      ensures all[i] in pool && pool[all[i]].ancestors <= Elements(all[..i])
    {
      if i < |vtx| {
        assert all[..i] == vtx[..i];
      } else {
        PackageMembers(pool, vtx, inBlock, x, sorted, i - |vtx|);
      }
    }
  }

  lemma PackageMembers(pool: Pool, vtx: seq<TxId>, inBlock: set<TxId>, x: TxId, sorted: seq<TxId>, k: nat)
    requires PoolOk(pool) && x in pool && Closed(pool, inBlock) && Elements(vtx) == inBlock
    requires Elements(sorted) == Package(pool, x, inBlock) && k < |sorted|
    requires forall i :: 0 <= i < |sorted| ==> sorted[i] in pool
    requires forall i, j :: 0 <= i < j < |sorted| ==> Precedes(pool, sorted[i], sorted[j])
    ensures pool[sorted[k]].ancestors <= Elements((vtx + sorted)[..|vtx| + k])
  {
    hide PoolOk, Closed, Precedes;
    forall y | y in pool[sorted[k]].ancestors
      ensures y in Elements((vtx + sorted)[..|vtx| + k])
    {
      PackageMember(pool, vtx, inBlock, x, sorted, k, y);
    }
  }

  /** Ancestors of package members are in the block or in the package. */
  lemma AncestorInPackage(pool: Pool, inBlock: set<TxId>, x: TxId, z: TxId, y: TxId)
    requires PoolOk(pool) && x in pool && z in Package(pool, x, inBlock) && z in pool && y in pool[z].ancestors
    ensures y in inBlock || y in Package(pool, x, inBlock)
  {
  }

  lemma FewerComeFirst(pool: Pool, sorted: seq<TxId>, j: nat, k: nat)
    requires j < |sorted| && k < |sorted| && forall i :: 0 <= i < |sorted| ==> sorted[i] in pool
    requires forall i, j :: 0 <= i < j < |sorted| ==> Precedes(pool, sorted[i], sorted[j])
    requires |pool[sorted[j]].ancestors| < |pool[sorted[k]].ancestors|
    ensures j < k
  {
  }

  lemma PackageMember(pool: Pool, vtx: seq<TxId>, inBlock: set<TxId>, x: TxId, sorted: seq<TxId>, k: nat, y: TxId)
    requires PoolOk(pool) && x in pool && Elements(vtx) == inBlock
    requires Elements(sorted) == Package(pool, x, inBlock) && k < |sorted|
    requires forall i :: 0 <= i < |sorted| ==> sorted[i] in pool
    requires forall i, j :: 0 <= i < j < |sorted| ==> Precedes(pool, sorted[i], sorted[j])
    requires y in pool[sorted[k]].ancestors
    ensures y in (vtx + sorted)[..|vtx| + k]
  {
    hide PoolOk, Precedes;
    var z := sorted[k];
    assert z in Elements(sorted);
    AncestorInPackage(pool, inBlock, x, z, y);
    AncestorCount(pool, z, y);
    assert (vtx + sorted)[..|vtx| + k] == vtx + sorted[..k];
    if y in inBlock {
      assert y in vtx;
    } else {
      assert y in Elements(sorted);
      var j :| 0 <= j < |sorted| && sorted[j] == y;
      FewerComeFirst(pool, sorted, j, k);
      assert sorted[..k][j] == y;
    }
  }

  // ----- updating the figures -----

  /** One added transaction: visits its descendants one by one. */
  method UpdateDescendants(pool: Pool, added: set<TxId>, y: TxId, modified: Modified) returns (after: Modified)
    requires y in pool
    ensures after == TakeOff(pool, modified, added, y)
  {
    hide Less, CachedFigures, LoweredIn, Descendants;
    after := modified;
    var descendants := Descendants(pool, y);
    DescendantsIn(pool, y);
    var todo := descendants;
    NoneLowered(pool, modified, y);
    assert descendants - todo - added == {};
    while todo != {}
      invariant todo <= descendants && after == LoweredIn(pool, modified, y, descendants - todo - added)
      decreases |todo|
    {
      var desc :| desc in todo;
      ghost var done := descendants - todo - added;
      todo := todo - {desc};
      if desc in added {
        assert descendants - todo - added == done;
        continue;
      }
      LoweredStep(pool, modified, y, done, desc);
      assert descendants - todo - added == done + {desc};
      if desc !in after {
        after := after[desc := Less(CachedFigures(pool, desc), pool[y])];
      } else {
        after := after[desc := Less(after[desc], pool[y])];
      }
    }
    assert descendants - todo - added == descendants - added;
  }

  lemma DescendantsIn(pool: Pool, y: TxId)
    ensures Descendants(pool, y) <= pool.Keys
  {
  }

  lemma NoneLowered(pool: Pool, modified: Modified, y: TxId)
    requires y in pool
    ensures LoweredIn(pool, modified, y, {}) == modified
  {
  }

  /** Takes all of `added` off their descendants, in whatever order. */
  method UpdatePackagesForAdded(pool: Pool, added: set<TxId>, modified: Modified) returns (after: Modified)
    requires added <= pool.Keys && modified.Keys <= pool.Keys
    ensures after == Reduced(pool, modified, added, added)
  {
    hide TakeOff, Reduced;
    after := modified;
    var todo := added;
    assert added - todo == {};
    ReducedNone(pool, modified, added);
    while todo != {}
      invariant todo <= added && after == Reduced(pool, modified, added, added - todo)
      decreases |todo|
    {
      var y :| y in todo;
      TakeOffStep(pool, modified, added, added - todo, y);
      after := UpdateDescendants(pool, added, y, after);
      assert added - todo + {y} == added - (todo - {y});
      todo := todo - {y};
    }
    assert added - todo == added;
  }

  lemma BooksClosed(pool: Pool, inBlock: set<TxId>, modified: Modified, failures: Failures)
    requires BooksOk(pool, inBlock, modified, failures)
    ensures Closed(pool, inBlock) && modified.Keys <= pool.Keys && modified.Keys !! inBlock
  {
  }

  lemma PackageInPool(pool: Pool, x: TxId, inBlock: set<TxId>)
    requires PoolOk(pool) && x in pool && x !in inBlock
    ensures Package(pool, x, inBlock) <= pool.Keys && Package(pool, x, inBlock) !! inBlock
  {
  }

  lemma InElements(s: seq<TxId>)
    ensures forall i :: 0 <= i < |s| ==> s[i] in Elements(s)
  {
  }

  lemma PrefixElements(s: seq<TxId>, i: nat)
    requires i <= |s| && Distinct(s)
    ensures s[..0] == [] && Elements(s[..0]) == {}
    ensures i < |s| ==> s[..i + 1] == s[..i] + [s[i]] && Elements(s[..i + 1]) == Elements(s[..i]) + {s[i]}
    ensures i < |s| ==> s[i] in Elements(s) && s[i] !in Elements(s[..i])
  {
    if i < |s| {
      assert s[..i + 1] == s[..i] + [s[i]];
      ElementsAppend(s[..i], [s[i]]);
    }
  }

  /** High enough figures bound the true weight and signature operations of a package. */
  lemma PackageFits(pool: Pool, x: TxId, inBlock: set<TxId>, figures: Figures)
    requires PoolOk(pool) && x in pool && AtLeast(figures, TrueFigures(pool, x, inBlock))
    ensures Sum(Package(pool, x, inBlock), Weight(pool)) <= WITNESS_SCALE_FACTOR * figures.size
    ensures Sum(Package(pool, x, inBlock), SigOps(pool)) <= figures.sigops
  {
    SumScaled(Package(pool, x, inBlock), Weight(pool), Size(pool), WITNESS_SCALE_FACTOR);
  }

  lemma BooksInitial(pool: Pool, inBlock: set<TxId>)
    requires PoolOk(pool) && Closed(pool, inBlock)
    ensures BooksOk(pool, inBlock, Reduced(pool, map[], inBlock, inBlock), map[])
  {
    hide Reduced;
    assert BooksOk(pool, {}, map[], map[]);
    assert {} + inBlock == inBlock;
    var none: Modified := map[];
    assert none - inBlock == none;
    BooksAdded(pool, {}, inBlock, none, map[]);
  }

  /** Each transaction of the block from place `from` on is final. */
  ghost predicate AllFinal(isFinal: TxId -> bool, vtx: seq<TxId>, from: nat) {
    forall i :: from <= i < |vtx| ==> isFinal(vtx[i])
  }

  lemma FinalExtend(isFinal: TxId -> bool, vtx: seq<TxId>, more: seq<TxId>, from: nat)
    requires vtx <= more && AllFinal(isFinal, vtx, from) && forall i :: |vtx| <= i < |more| ==> isFinal(more[i])
    ensures AllFinal(isFinal, more, from)
  {
  }

  lemma NothingToOrder(pool: Pool, isFinal: TxId -> bool, vtx: seq<TxId>)
    ensures AncestorsFirst(pool, vtx, |vtx|) && AllFinal(isFinal, vtx, |vtx|)
  {
  }

  /** The figures of whatever is looked at next. */
  lemma CandidateOk(pool: Pool, inBlock: set<TxId>, modified: Modified, failures: Failures, x: TxId)
    requires PoolOk(pool) && BooksOk(pool, inBlock, modified, failures) && x in pool
    ensures x in modified ==> x !in inBlock && modified[x] == Believed(pool, x, inBlock, Since(failures, x))
    ensures x in modified ==> pool[x].ancestors * (inBlock - Since(failures, x)) != {}
    ensures x !in modified && x !in inBlock ==> CachedFigures(pool, x) == Believed(pool, x, inBlock, Since(failures, x))
  {
    hide Believed, CachedFigures, PoolOk, Closed;
    if x !in modified && x !in inBlock {
      UntouchedExact(pool, x, inBlock, Since(failures, x));
    }
  }

  /** Candidate `x` fails as a modified entry. */
  ghost function Failed(failures: Failures, x: TxId, inBlock: set<TxId>): Failures {
    failures[x := Failure(if x in failures then failures[x].first else inBlock, inBlock)]
  }

  /** A failed candidate leaves the modified entries until another ancestor of it is added. */
  lemma BooksFail(pool: Pool, inBlock: set<TxId>, modified: Modified, failures: Failures, x: TxId)
    requires BooksOk(pool, inBlock, modified, failures)
    ensures BooksOk(pool, inBlock, modified - {x}, Failed(failures, x, inBlock))
  {
    hide Believed, Closed;
    var after := Failed(failures, x, inBlock);
    var m, r := ModifiedOf(pool, inBlock, after), modified - {x};
    assert inBlock - inBlock == {};
    forall d: TxId
      ensures d in m <==> d in r
      ensures d in m ==> m[d] == r[d]
    {
      assert d != x ==> Since(after, d) == Since(failures, d);
    }
    hide ModifiedOf;
    assert m == r;
  }

  lemma BlockGrows(pool: Pool, x: TxId, inBlock: set<TxId>)
    requires x in pool && x !in inBlock
    ensures |pool.Keys - (inBlock + Package(pool, x, inBlock))| < |pool.Keys - inBlock|
    ensures x in Package(pool, x, inBlock)
  {
    ProperSubsetSize(pool.Keys - (inBlock + Package(pool, x, inBlock)), pool.Keys - inBlock, x);
  }

  // ----- what is left out -----

  /** A block with these transactions, and the room set aside from the start, takes these figures and stays strictly under
      its limits. */
  ghost predicate RoomFor(pool: Pool, maxWeight: int, block: set<TxId>, f: Figures) {
    && RESERVED_WEIGHT + Sum(block, Weight(pool)) + WITNESS_SCALE_FACTOR * f.size < maxWeight
    && RESERVED_SIGOPS + Sum(block, SigOps(pool)) + f.sigops < MAX_BLOCK_SIGOPS_COST
  }

  ghost predicate FinalPackage(pool: Pool, isFinal: TxId -> bool, block: set<TxId>, x: TxId)
    requires x in pool
  {
    forall y :: y in Package(pool, x, block) ==> isFinal(y)
  }

  /** The package of `x` is final and fits. */
  ghost predicate Fits(pool: Pool, isFinal: TxId -> bool, maxWeight: int, block: set<TxId>, x: TxId)
    requires x in pool
  {
    FinalPackage(pool, isFinal, block, x) && RoomFor(pool, maxWeight, block, TrueFigures(pool, x, block))
  }

  /** The block after its first `n` transactions. */
  ghost function BlockAt(vtx: seq<TxId>, n: nat): set<TxId>
    requires n <= |vtx|
  {
    Elements(vtx[..n])
  }

  /** `x` did not fit when the block was `b0`, failed again at `b1`, got an ancestor into the block after that, and was
      refused at `b2` on figures that count its ancestors in `b1`, although it fitted. */
  ghost predicate MisjudgedAt(pool: Pool, isFinal: TxId -> bool, maxWeight: int, b0: set<TxId>, b1: set<TxId>, b2: set<TxId>,
                              x: TxId)
    requires x in pool
  {
    && b0 <= b1 <= b2 && x !in b2
    && !Fits(pool, isFinal, maxWeight, b0, x) && Fits(pool, isFinal, maxWeight, b2, x)
    && pool[x].ancestors * b1 != {} && pool[x].ancestors * (b2 - b1) != {}
    && !RoomFor(pool, maxWeight, b2, Believed(pool, x, b2, b1))
  }

  /** That happened while the block grew from its first `from` transactions. */
  ghost predicate Misjudged(pool: Pool, isFinal: TxId -> bool, maxWeight: int, vtx: seq<TxId>, from: nat, x: TxId)
    requires x in pool
  {
    exists l, m, n :: from <= l <= m <= n <= |vtx|
      && MisjudgedAt(pool, isFinal, maxWeight, BlockAt(vtx, l), BlockAt(vtx, m), BlockAt(vtx, n), x)
  }

  lemma MisjudgedStays(pool: Pool, isFinal: TxId -> bool, maxWeight: int, vtx: seq<TxId>, more: seq<TxId>, from: nat, x: TxId)
    requires x in pool && vtx <= more && Misjudged(pool, isFinal, maxWeight, vtx, from, x)
    ensures Misjudged(pool, isFinal, maxWeight, more, from, x)
  {
    hide MisjudgedAt;
    var l, m, n :| from <= l <= m <= n <= |vtx|
      && MisjudgedAt(pool, isFinal, maxWeight, BlockAt(vtx, l), BlockAt(vtx, m), BlockAt(vtx, n), x);
    BlockStays(vtx, more, l);
    BlockStays(vtx, more, m);
    BlockStays(vtx, more, n);
  }

  lemma BlockStays(vtx: seq<TxId>, more: seq<TxId>, n: nat)
    requires vtx <= more && n <= |vtx|
    ensures BlockAt(vtx, n) == BlockAt(more, n)
  {
    assert more[..n] == vtx[..n];
  }

  lemma {:induction false} BlockGrowing(vtx: seq<TxId>, m: nat, n: nat)
    requires m <= n <= |vtx|
    ensures BlockAt(vtx, m) <= BlockAt(vtx, n) <= Elements(vtx)
  {
    assert vtx[..n] == vtx[..m] + vtx[m..n];
    ElementsAppend(vtx[..m], vtx[m..n]);
    assert vtx == vtx[..n] + vtx[n..];
    ElementsAppend(vtx[..n], vtx[n..]);
  }

  /** A transaction that weighs less than the four times its size that the test reckons with. */
  predicate Slack(pool: Pool, y: TxId) {
    y in pool && pool[y].weight < WITNESS_SCALE_FACTOR * pool[y].size
  }

  /** What did not fit can fit later only if an ancestor that weighs less than reckoned entered the block in between. */
  lemma FittingNeedsSlack(pool: Pool, isFinal: TxId -> bool, maxWeight: int, b0: set<TxId>, b2: set<TxId>, x: TxId)
    requires PoolOk(pool) && x in pool && b0 <= b2 <= pool.Keys && x !in b2 && forall y :: y in b2 - b0 ==> isFinal(y)
    requires !Fits(pool, isFinal, maxWeight, b0, x) && Fits(pool, isFinal, maxWeight, b2, x)
    ensures exists y :: y in pool[x].ancestors * (b2 - b0) && Slack(pool, y)
  {
    hide PoolOk, RoomFor;
    var entered := pool[x].ancestors * (b2 - b0);
    assert Package(pool, x, b0) == Package(pool, x, b2) + entered;
    if forall y :: y in entered ==> !Slack(pool, y) {
      assert FinalPackage(pool, isFinal, b0, x);
      NoRoomLater(pool, maxWeight, b0, b2, x);
      assert false;
    }
  }

  lemma NoRoomLater(pool: Pool, maxWeight: int, b0: set<TxId>, b2: set<TxId>, x: TxId)
    requires PoolOk(pool) && x in pool && b0 <= b2 <= pool.Keys && x !in b2
    requires forall y :: y in pool[x].ancestors * (b2 - b0) ==> !Slack(pool, y)
    requires RoomFor(pool, maxWeight, b2, TrueFigures(pool, x, b2))
    ensures RoomFor(pool, maxWeight, b0, TrueFigures(pool, x, b0))
  {
    hide Sum, PoolOk, Slack, Weight, Size, SigOps;
    var p2, entered, rest := Package(pool, x, b2), pool[x].ancestors * (b2 - b0), b2 - b0 - pool[x].ancestors;
    assert Package(pool, x, b0) == p2 + entered;
    assert b2 == b0 + (entered + rest);
    NaturalFigures(pool);
    SumUnion(p2, entered, Size(pool));
    SumUnion(p2, entered, SigOps(pool));
    SumUnion(b0, entered + rest, Weight(pool));
    SumUnion(b0, entered + rest, SigOps(pool));
    SumUnion(entered, rest, Weight(pool));
    SumUnion(entered, rest, SigOps(pool));
    SumNonNegative(rest, Weight(pool));
    SumNonNegative(rest, SigOps(pool));
    ExactWeight(pool, entered);
  }

  lemma NaturalFigures(pool: Pool)
    ensures forall x: TxId :: Weight(pool)(x) >= 0 && SigOps(pool)(x) >= 0
  {
  }

  lemma {:induction false} ExactWeight(pool: Pool, s: set<TxId>)
    requires s <= pool.Keys && forall y :: y in s ==> !Slack(pool, y)
    ensures Sum(s, Weight(pool)) >= WITNESS_SCALE_FACTOR * Sum(s, Size(pool))
    decreases |s|
  {
    if s != {} {
      var x :| x in s;
      SumRemove(s, Weight(pool), x);
      SumRemove(s, Size(pool), x);
      assert !Slack(pool, x);
      ExactWeight(pool, s - {x});
    }
  }

  /** `x` has two ancestors in the block, one of which weighs less than reckoned and entered after the first `from`. */
  ghost predicate LightAncestor(pool: Pool, vtx: seq<TxId>, from: nat, x: TxId)
    requires x in pool && from <= |vtx|
  {
    exists y, z :: y in pool[x].ancestors * Elements(vtx[from..]) && z in pool[x].ancestors * Elements(vtx)
                   && y != z && Slack(pool, y)
  }

  /** A candidate is misjudged only if one of its ancestors that weighs less than reckoned entered the block after it had
      failed, and another of its ancestors is in the block too. */
  lemma MisjudgedNeedsSlack(pool: Pool, isFinal: TxId -> bool, maxWeight: int, vtx: seq<TxId>, from: nat, x: TxId)
    requires PoolOk(pool) && x in pool && from <= |vtx| && Misjudged(pool, isFinal, maxWeight, vtx, from, x)
    requires Elements(vtx) <= pool.Keys && AllFinal(isFinal, vtx, from)
    ensures LightAncestor(pool, vtx, from, x)
  {
    hide PoolOk, Fits, Slack, RoomFor, Believed, Elements;
    var l, m, n :| from <= l <= m <= n <= |vtx|
      && MisjudgedAt(pool, isFinal, maxWeight, BlockAt(vtx, l), BlockAt(vtx, m), BlockAt(vtx, n), x);
    var b0, b1, b2 := BlockAt(vtx, l), BlockAt(vtx, m), BlockAt(vtx, n);
    BlockGrowing(vtx, l, n);
    EnteredFinal(isFinal, vtx, from, l, n);
    FittingNeedsSlack(pool, isFinal, maxWeight, b0, b2, x);
    var y :| y in pool[x].ancestors * (b2 - b0) && Slack(pool, y);
    EnteredLater(vtx, from, l, n, y);
    var earlier :| earlier in pool[x].ancestors * b1;
    var later :| later in pool[x].ancestors * (b2 - b1);
    var z := if y == earlier then later else earlier;
    assert z in pool[x].ancestors * Elements(vtx) && y != z;
  }

  lemma EnteredLater(vtx: seq<TxId>, from: nat, l: nat, n: nat, y: TxId)
    requires from <= l <= n <= |vtx| && y in BlockAt(vtx, n) - BlockAt(vtx, l)
    ensures y in Elements(vtx[from..])
  {
    InBlockAt(vtx, l);
    FromBlockAt(vtx, n, y);
    hide BlockAt;
    var i :| 0 <= i < n && vtx[i] == y;
    assert i >= l;
    assert vtx[from..][i - from] == y;
  }

  lemma EnteredFinal(isFinal: TxId -> bool, vtx: seq<TxId>, from: nat, l: nat, n: nat)
    requires from <= l <= n <= |vtx| && AllFinal(isFinal, vtx, from)
    ensures forall y :: y in BlockAt(vtx, n) - BlockAt(vtx, l) ==> isFinal(y)
  {
    InBlockAt(vtx, l);
    hide BlockAt;
    forall y | y in BlockAt(vtx, n) - BlockAt(vtx, l)
      ensures isFinal(y)
    {
      FromBlockAt(vtx, n, y);
      var i :| 0 <= i < n && vtx[i] == y;
      assert i >= l;
    }
  }

  lemma InBlockAt(vtx: seq<TxId>, l: nat)
    requires l <= |vtx|
    ensures forall i :: 0 <= i < l ==> vtx[i] in BlockAt(vtx, l)
  {
    forall i | 0 <= i < l
      ensures vtx[i] in BlockAt(vtx, l)
    {
      assert vtx[..l][i] == vtx[i];
    }
  }

  lemma FromBlockAt(vtx: seq<TxId>, n: nat, y: TxId)
    requires n <= |vtx| && y in BlockAt(vtx, n)
    ensures exists i :: 0 <= i < n && vtx[i] == y
  {
    var i :| 0 <= i < n && vtx[..n][i] == y;
  }

  /** What is known of the failures so far: when they happened, and that the first was deserved. */
  ghost predicate HistoryOk(pool: Pool, isFinal: TxId -> bool, maxWeight: int, vtx: seq<TxId>, from: nat, failures: Failures) {
    forall x :: x in failures ==>
      && x in pool && !Fits(pool, isFinal, maxWeight, failures[x].first, x)
      && exists l, m :: from <= l <= m <= |vtx| && failures[x].first == BlockAt(vtx, l) && failures[x].last == BlockAt(vtx, m)
  }

  lemma HistoryStays(pool: Pool, isFinal: TxId -> bool, maxWeight: int, vtx: seq<TxId>, more: seq<TxId>, from: nat,
                     failures: Failures)
    requires vtx <= more && HistoryOk(pool, isFinal, maxWeight, vtx, from, failures)
    ensures HistoryOk(pool, isFinal, maxWeight, more, from, failures)
  {
    hide Fits;
    forall x | x in failures
      ensures exists l, m :: from <= l <= m <= |more|
                && failures[x].first == BlockAt(more, l) && failures[x].last == BlockAt(more, m)
    {
      var l, m :| from <= l <= m <= |vtx| && failures[x].first == BlockAt(vtx, l) && failures[x].last == BlockAt(vtx, m);
      BlockStays(vtx, more, l);
      BlockStays(vtx, more, m);
    }
  }

  /** Candidate `x` is refused as a modified entry: either it does not fit, or it was misjudged. */
  lemma HistoryFail(pool: Pool, isFinal: TxId -> bool, maxWeight: int, vtx: seq<TxId>, from: nat, failures: Failures, x: TxId)
    requires HistoryOk(pool, isFinal, maxWeight, vtx, from, failures) && from <= |vtx| && x in pool && x !in Elements(vtx)
    requires pool[x].ancestors * (Elements(vtx) - Since(failures, x)) != {}
    requires !FinalPackage(pool, isFinal, Elements(vtx), x)
             || !RoomFor(pool, maxWeight, Elements(vtx), Believed(pool, x, Elements(vtx), Since(failures, x)))
    ensures HistoryOk(pool, isFinal, maxWeight, vtx, from, Failed(failures, x, Elements(vtx)))
    ensures !Fits(pool, isFinal, maxWeight, Elements(vtx), x) || Misjudged(pool, isFinal, maxWeight, vtx, from, x)
  {
    hide RoomFor, FinalPackage, Believed, Elements, MisjudgedAt;
    var block, n, since := Elements(vtx), |vtx|, Since(failures, x);
    assert vtx[..n] == vtx;
    assert block == BlockAt(vtx, n);
    hide BlockAt;
    if pool[x].ancestors * since == {} {
      BelievedTrue(pool, x, block, since);
    } else {
      assert x in failures;
      var l, m :| from <= l <= m <= n && failures[x].first == BlockAt(vtx, l) && failures[x].last == BlockAt(vtx, m);
      BlockGrowing(vtx, l, m);
      BlockGrowing(vtx, m, n);
      JudgedAgain(pool, isFinal, maxWeight, BlockAt(vtx, l), BlockAt(vtx, m), block, x);
    }
    HistoryGrows(pool, isFinal, maxWeight, vtx, from, failures, x);
  }

  lemma JudgedAgain(pool: Pool, isFinal: TxId -> bool, maxWeight: int, b0: set<TxId>, b1: set<TxId>, b2: set<TxId>, x: TxId)
    requires x in pool && b0 <= b1 <= b2 && x !in b2 && !Fits(pool, isFinal, maxWeight, b0, x)
    requires pool[x].ancestors * b1 != {} && pool[x].ancestors * (b2 - b1) != {}
    requires !FinalPackage(pool, isFinal, b2, x) || !RoomFor(pool, maxWeight, b2, Believed(pool, x, b2, b1))
    ensures !Fits(pool, isFinal, maxWeight, b2, x) || MisjudgedAt(pool, isFinal, maxWeight, b0, b1, b2, x)
  {
    hide RoomFor, FinalPackage, Believed;
  }

  lemma HistoryGrows(pool: Pool, isFinal: TxId -> bool, maxWeight: int, vtx: seq<TxId>, from: nat, failures: Failures, x: TxId)
    requires HistoryOk(pool, isFinal, maxWeight, vtx, from, failures) && from <= |vtx| && x in pool
    requires x !in failures ==> !Fits(pool, isFinal, maxWeight, Elements(vtx), x)
    ensures HistoryOk(pool, isFinal, maxWeight, vtx, from, Failed(failures, x, Elements(vtx)))
  {
    hide Fits, Elements;
    var n := |vtx|;
    assert vtx[..n] == vtx;
    var after := Failed(failures, x, Elements(vtx));
    forall z | z in after
      ensures z in pool && !Fits(pool, isFinal, maxWeight, after[z].first, z)
      ensures exists l, m :: from <= l <= m <= n && after[z].first == BlockAt(vtx, l) && after[z].last == BlockAt(vtx, m)
    {
      if z in failures {
        var l, m :| from <= l <= m <= n && failures[z].first == BlockAt(vtx, l) && failures[z].last == BlockAt(vtx, m);
        if z == x {
          assert after[z].first == BlockAt(vtx, l) && after[z].last == BlockAt(vtx, n);
        }
      } else {
        assert after[z].first == BlockAt(vtx, n) && after[z].last == BlockAt(vtx, n);
      }
    }
  }

  /** Each of these is in the block, waits among the modified entries, does not fit, or was misjudged. */
  ghost predicate Settled(pool: Pool, isFinal: TxId -> bool, maxWeight: int, vtx: seq<TxId>, from: nat, modified: Modified,
                          s: set<TxId>)
  {
    forall x :: x in s && x in pool && x !in Elements(vtx) && x !in modified && Fits(pool, isFinal, maxWeight, Elements(vtx), x)
      ==> Misjudged(pool, isFinal, maxWeight, vtx, from, x)
  }

  /** Taking a package leaves whatever it does not touch as unfit as before, and puts the rest among the modified entries. */
  lemma SettledTake(pool: Pool, isFinal: TxId -> bool, maxWeight: int, vtx: seq<TxId>, more: seq<TxId>, from: nat,
                    modified: Modified, after: Modified, failures: Failures, s: set<TxId>)
    requires Settled(pool, isFinal, maxWeight, vtx, from, modified, s) && vtx <= more
    requires BooksOk(pool, Elements(vtx), modified, failures) && BooksOk(pool, Elements(more), after, failures)
    ensures Settled(pool, isFinal, maxWeight, more, from, after, s)
  {
    hide Fits, Misjudged, Believed, Elements;
    var block, larger := Elements(vtx), Elements(more);
    assert more == vtx + more[|vtx|..];
    ElementsAppend(vtx, more[|vtx|..]);
    forall x | x in s && x in pool && x !in larger && x !in after && Fits(pool, isFinal, maxWeight, larger, x)
      ensures Misjudged(pool, isFinal, maxWeight, more, from, x)
    {
      assert pool[x].ancestors * (larger - Since(failures, x)) == {};
      assert x !in modified by {
        assert pool[x].ancestors * (block - Since(failures, x)) <= pool[x].ancestors * (larger - Since(failures, x));
      }
      assert pool[x].ancestors !! larger - block by {
        assert Since(failures, x) <= block;
        assert pool[x].ancestors * (larger - block) <= pool[x].ancestors * (larger - Since(failures, x));
      }
      FitsEarlier(pool, isFinal, maxWeight, block, larger, x);
      MisjudgedStays(pool, isFinal, maxWeight, vtx, more, from, x);
    }
  }

  lemma FitsEarlier(pool: Pool, isFinal: TxId -> bool, maxWeight: int, block: set<TxId>, larger: set<TxId>, x: TxId)
    requires x in pool && block <= larger && pool[x].ancestors !! larger - block
    requires Fits(pool, isFinal, maxWeight, larger, x)
    ensures Fits(pool, isFinal, maxWeight, block, x)
  {
    assert Package(pool, x, larger) == Package(pool, x, block);
    SumMore(block, larger, Weight(pool));
    SumMore(block, larger, SigOps(pool));
  }

  lemma SettledReject(pool: Pool, isFinal: TxId -> bool, maxWeight: int, vtx: seq<TxId>, from: nat, modified: Modified,
                      s: set<TxId>, x: TxId)
    requires Settled(pool, isFinal, maxWeight, vtx, from, modified, s) && x in pool
    requires !Fits(pool, isFinal, maxWeight, Elements(vtx), x) || Misjudged(pool, isFinal, maxWeight, vtx, from, x)
    ensures Settled(pool, isFinal, maxWeight, vtx, from, modified - {x}, s + {x})
    ensures Settled(pool, isFinal, maxWeight, vtx, from, modified, s + {x})
  {
    hide Fits, Misjudged;
  }

  lemma SettledMore(pool: Pool, isFinal: TxId -> bool, maxWeight: int, vtx: seq<TxId>, from: nat, modified: Modified,
                    s: set<TxId>, x: TxId)
    requires Settled(pool, isFinal, maxWeight, vtx, from, modified, s)
    requires x in modified || x in Elements(vtx) || x in s
    ensures Settled(pool, isFinal, maxWeight, vtx, from, modified, s + {x})
  {
    hide Fits, Misjudged;
  }

  lemma SettledLess(pool: Pool, isFinal: TxId -> bool, maxWeight: int, vtx: seq<TxId>, from: nat, modified: Modified,
                    s: set<TxId>, t: set<TxId>)
    requires Settled(pool, isFinal, maxWeight, vtx, from, modified, s) && t <= s
    ensures Settled(pool, isFinal, maxWeight, vtx, from, modified, t)
  {
    hide Fits, Misjudged;
  }

  ghost predicate NothingFits(pool: Pool, isFinal: TxId -> bool, maxWeight: int, block: set<TxId>, s: set<TxId>) {
    forall x :: x in s && x in pool && x !in block ==> !Fits(pool, isFinal, maxWeight, block, x)
  }

  /** Whatever fits among those passed over has two ancestors in the block, a light one that entered meanwhile and another. */
  ghost predicate OnlyOverLight(pool: Pool, isFinal: TxId -> bool, maxWeight: int, vtx: seq<TxId>, from: nat, s: set<TxId>)
    requires from <= |vtx|
  {
    forall x :: x in s && x in pool && x !in Elements(vtx) && Fits(pool, isFinal, maxWeight, Elements(vtx), x) ==>
      LightAncestor(pool, vtx, from, x)
  }

  /** When the candidates run out, whatever still fits has such ancestors; so where every transaction weighs what the test
      reckons with, nothing that fits is left out. */
  lemma NothingLeft(pool: Pool, isFinal: TxId -> bool, maxWeight: int, vtx: seq<TxId>, from: nat, s: set<TxId>)
    requires PoolOk(pool) && Elements(vtx) <= pool.Keys && from <= |vtx| && AllFinal(isFinal, vtx, from)
    requires Settled(pool, isFinal, maxWeight, vtx, from, map[], s)
    ensures OnlyOverLight(pool, isFinal, maxWeight, vtx, from, s)
    ensures (forall y :: !Slack(pool, y)) ==> NothingFits(pool, isFinal, maxWeight, Elements(vtx), s)
  {
    hide PoolOk, Fits, Misjudged, AllFinal, Elements, Slack;
    forall x | x in s && x in pool && x !in Elements(vtx) && Fits(pool, isFinal, maxWeight, Elements(vtx), x)
      ensures LightAncestor(pool, vtx, from, x)
    {
      MisjudgedNeedsSlack(pool, isFinal, maxWeight, vtx, from, x);
    }
  }

  /** The candidates outside the block that would not fit with their cached figures. */
  ghost function Bulky(pool: Pool, maxWeight: int, block: set<TxId>): set<TxId> {
    set x | x in pool && x !in block && !RoomFor(pool, maxWeight, block, CachedFigures(pool, x))
  }

  lemma BulkyEnough(pool: Pool, maxWeight: int, block: set<TxId>, refused: set<TxId>)
    requires refused <= Bulky(pool, maxWeight, block)
    ensures |refused| <= |Bulky(pool, maxWeight, block)|
  {
    SubsetSize(refused, Bulky(pool, maxWeight, block));
  }

  lemma {:induction false} SubsetSize(a: set<TxId>, b: set<TxId>)
    requires a <= b
    ensures |a| <= |b|
  {
    assert b == a + (b - a);
  }

  lemma IsBulky(pool: Pool, maxWeight: int, block: set<TxId>, x: TxId, since: set<TxId>)
    requires PoolOk(pool) && x in pool && x !in block && !RoomFor(pool, maxWeight, block, Believed(pool, x, block, since))
    ensures x in Bulky(pool, maxWeight, block)
  {
    CachedAtLeast(pool, x, block, since);
    hide Believed, PoolOk, CachedFigures;
  }

  /** The candidates refused for their size since the block last grew, and their number. */
  ghost predicate Refused(pool: Pool, maxWeight: int, block: set<TxId>, order: seq<TxId>, mi: nat, modified: Modified,
                          failed: set<TxId>, refused: set<TxId>, count: nat)
    requires mi <= |order|
  {
    && |refused| == count && refused <= Bulky(pool, maxWeight, block)
    && refused !! modified.Keys && refused <= failed + Elements(order[..mi])
  }

  lemma RefusedNone(pool: Pool, maxWeight: int, block: set<TxId>, order: seq<TxId>, mi: nat, modified: Modified,
                    failed: set<TxId>)
    requires mi <= |order|
    ensures Refused(pool, maxWeight, block, order, mi, modified, failed, {}, 0)
  {
  }

  lemma RefusedSkip(pool: Pool, maxWeight: int, block: set<TxId>, order: seq<TxId>, mi: nat, modified: Modified,
                    failed: set<TxId>, refused: set<TxId>, count: nat)
    requires mi < |order| && Refused(pool, maxWeight, block, order, mi, modified, failed, refused, count)
    ensures Refused(pool, maxWeight, block, order, mi + 1, modified, failed, refused, count)
  {
    hide Bulky;
    OneFurther(order, mi, failed);
  }

  lemma RefusedOne(pool: Pool, maxWeight: int, block: set<TxId>, order: seq<TxId>, mi: nat, x: TxId, fromModified: bool,
                   modified: Modified, failed: set<TxId>,
                   refused: set<TxId>, count: nat, bulky: bool)
    requires mi <= |order| && Distinct(order) && Refused(pool, maxWeight, block, order, mi, modified, failed, refused, count)
    requires bulky ==> x in Bulky(pool, maxWeight, block)
    requires if fromModified then x in modified else mi < |order| && x == order[mi] && x !in modified && x !in failed
    ensures var more := if bulky then refused + {x} else refused;
            var n := if bulky then count + 1 else count;
            if fromModified then Refused(pool, maxWeight, block, order, mi, modified - {x}, failed + {x}, more, n)
            else Refused(pool, maxWeight, block, order, mi + 1, modified, failed, more, n)
  {
    hide Bulky, Elements;
    NotRefused(order, mi, x, fromModified, modified, failed, refused);
    SeenMore(order, mi, failed, refused, x, fromModified);
  }

  lemma NotRefused(order: seq<TxId>, mi: nat, x: TxId, fromModified: bool, modified: Modified, failed: set<TxId>,
                   refused: set<TxId>)
    requires mi <= |order| && Distinct(order) && refused !! modified.Keys && refused <= failed + Elements(order[..mi])
    requires if fromModified then x in modified else mi < |order| && x == order[mi] && x !in modified && x !in failed
    ensures x !in refused
  {
    hide Elements;
    if !fromModified {
      PrefixElements(order, mi);
    }
  }

  lemma SeenMore(order: seq<TxId>, mi: nat, failed: set<TxId>, refused: set<TxId>, x: TxId, fromModified: bool)
    requires mi <= |order| && refused <= failed + Elements(order[..mi]) && (!fromModified ==> mi < |order| && x == order[mi])
    ensures refused + {x} <=
            (if fromModified then failed + {x} else failed) + Elements(order[..if fromModified then mi else mi + 1])
  {
    hide Elements;
    if !fromModified {
      OneFurther(order, mi, failed);
    }
  }

  lemma GivenUp(pool: Pool, maxWeight: int, block: set<TxId>, order: seq<TxId>, mi: nat, modified: Modified,
                failed: set<TxId>, refused: set<TxId>, count: nat)
    requires mi <= |order| && Refused(pool, maxWeight, block, order, mi, modified, failed, refused, count)
    ensures count <= |Bulky(pool, maxWeight, block)|
  {
    BulkyEnough(pool, maxWeight, block, refused);
  }

  /** Where the loop is: the place in the pool's list, the modified entries, the candidates that failed as such, the failures
      in a row and the packages taken. */
  datatype Progress = Progress(mi: nat, modified: Modified, failed: set<TxId>, failures: nat, packages: nat)

  /** What it has behind it: the failures, and the candidates refused for their size since the block last grew. */
  datatype Account = Account(history: Failures, refused: set<TxId>)

  predicate MoreToDo(order: seq<TxId>, p: Progress) {
    p.mi < |order| || p.modified != map[]
  }

  /** Why selection ended. */
  datatype Ending = Exhausted | PaysTooLittle | NearlyFull

  // ----- the assembler -----

  class BlockAssembler {
    const pool: Pool
    const maxWeight: int
    const isFinal: TxId -> bool
    var vtx: seq<TxId>
    var inBlock: set<TxId>
    var blockWeight: int
    var blockSigOps: int

    /** Room for the coinbase transaction is set aside from the start. */
    constructor (pool: Pool, maxWeight: int, isFinal: TxId -> bool)
      ensures this.pool == pool && this.maxWeight == maxWeight && this.isFinal == isFinal
      ensures Counted() && vtx == [] && inBlock == {}
    {
      this.pool, this.maxWeight, this.isFinal := pool, maxWeight, isFinal;
      vtx, inBlock, blockWeight, blockSigOps := [], {}, RESERVED_WEIGHT, RESERVED_SIGOPS;
    }

    /** The list, the set and the two counters describe the same transactions. */
    ghost predicate Counted()
      reads this
    {
      && Distinct(vtx) && Elements(vtx) == inBlock && inBlock <= pool.Keys
      && blockWeight == RESERVED_WEIGHT + Sum(inBlock, Weight(pool))
      && blockSigOps == RESERVED_SIGOPS + Sum(inBlock, SigOps(pool))
    }

    predicate TestPackage(size: int, sigops: int)
      reads this
    {
      blockWeight + WITNESS_SCALE_FACTOR * size < maxWeight && blockSigOps + sigops < MAX_BLOCK_SIGOPS_COST
    }

    method AddToBlock(x: TxId)
      requires Counted() && x in pool && x !in inBlock
      modifies this
      ensures Counted()
      ensures vtx == old(vtx) + [x] && inBlock == old(inBlock) + {x}
    {
      SumAdd(inBlock, Weight(pool), x);
      SumAdd(inBlock, SigOps(pool), x);
      ElementsAppend(vtx, [x]);
      assert x !in Elements(vtx);
      vtx := vtx + [x];
      blockWeight := blockWeight + pool[x].weight;
      blockSigOps := blockSigOps + pool[x].sigops;
      inBlock := inBlock + {x};
    }

    /** Votes and slashings go first, without regard to limits or ancestors. */
    method AddMandatoryTxs(order: seq<TxId>, mandatory: TxId -> bool)
      requires Counted() && inBlock == {} && Distinct(order) && Elements(order) == pool.Keys
      modifies this
      ensures Counted() && inBlock == set x | x in pool && mandatory(x)
    {
      hide Counted;
      for i := 0 to |order|
        invariant Counted()
        invariant inBlock == set x | x in order[..i] && mandatory(x)
      {
        assert order[i] in Elements(order);
        assert order[..i + 1] == order[..i] + [order[i]];
        assert order[i] !in order[..i];
        if mandatory(order[i]) {
          AddToBlock(order[i]);
        }
      }
      assert order[..|order|] == order;
      assert forall x :: x in pool.Keys <==> x in order;
    }

    /** Adds the sorted transactions of a package one by one, dropping their modified entries. */
    method AddAll(sorted: seq<TxId>, modified: Modified) returns (after: Modified)
      requires Counted() && Distinct(sorted) && Elements(sorted) <= pool.Keys && Elements(sorted) !! inBlock
      modifies this
      ensures Counted() && vtx == old(vtx) + sorted && inBlock == old(inBlock) + Elements(sorted)
      ensures after == modified - Elements(sorted)
    {
      hide Counted;
      after := modified;
      PrefixElements(sorted, 0);
      for i := 0 to |sorted|
        invariant Counted() && vtx == old(vtx) + sorted[..i] && inBlock == old(inBlock) + Elements(sorted[..i])
        invariant after == modified - Elements(sorted[..i])
      {
        PrefixElements(sorted, i);
        AddToBlock(sorted[i]);
        after := after - {sorted[i]};
      }
      assert sorted[..|sorted|] == sorted;
    }

    /** Puts the package of `x` into the block, given figures for it that are high enough and pass the test. */
    method TakePackage(x: TxId, figures: Figures, modified: Modified, ghost failures: Failures, ghost from: nat)
        returns (after: Modified)
      requires PoolOk(pool) && Counted() && BooksOk(pool, inBlock, modified, failures)
      requires x in pool && x !in inBlock && from <= |vtx| && AncestorsFirst(pool, vtx, from)
      requires AtLeast(figures, TrueFigures(pool, x, inBlock)) && TestPackage(figures.size, figures.sigops)
      modifies this
      ensures Counted() && BooksOk(pool, inBlock, after, failures)
      ensures inBlock == old(inBlock) + Package(pool, x, old(inBlock))
      ensures old(vtx) <= vtx && AncestorsFirst(pool, vtx, from)
      ensures forall i :: |old(vtx)| <= i < |vtx| ==> vtx[i] in Package(pool, x, old(inBlock))
      ensures old(blockWeight) <= blockWeight < maxWeight && old(blockSigOps) <= blockSigOps < MAX_BLOCK_SIGOPS_COST
    {
      hide PoolOk, BooksOk, Precedes, AncestorsFirst, Reduced, Elements;
      var package := Package(pool, x, inBlock);
      PackageFits(pool, x, inBlock, figures);
      BooksClosed(pool, inBlock, modified, failures);
      PackageInPool(pool, x, inBlock);
      PackageCloses(pool, x, inBlock);
      BooksAdded(pool, inBlock, package, modified, failures);
      hide Closed, Package, AtLeast, TrueFigures;
      var sorted := SortForBlock(pool, package);
      InElements(sorted);
      PackageInOrder(pool, vtx, inBlock, x, sorted, from);
      SumUnion(inBlock, package, Weight(pool));
      SumUnion(inBlock, package, SigOps(pool));
      SumNonNegative(package, Weight(pool));
      SumNonNegative(package, SigOps(pool));
      after := AddAll(sorted, modified);
      after := UpdatePackagesForAdded(pool, package, after);
    }

    /** Tries the package of `x`: takes it, or drops it from the modified candidates if that is where it came from. */
    method Consider(x: TxId, figures: Figures, fromModified: bool, modified: Modified, failed: set<TxId>, failures: nat,
                    ghost history: Failures, ghost from: nat)
        returns (modified': Modified, failed': set<TxId>, failures': nat, took: bool, giveUp: bool, ghost history': Failures)
      requires PoolOk(pool) && Counted() && BooksOk(pool, inBlock, modified, history) && history.Keys == failed
      requires x in pool && x !in inBlock && from <= |vtx| && AncestorsFirst(pool, vtx, from)
      requires AtLeast(figures, TrueFigures(pool, x, inBlock)) && AllFinal(isFinal, vtx, from)
      modifies this
      ensures Counted() && BooksOk(pool, inBlock, modified', history') && history'.Keys == failed'
      ensures old(vtx) <= vtx && AncestorsFirst(pool, vtx, from) && AllFinal(isFinal, vtx, from)
      ensures took <==> old(TestPackage(figures.size, figures.sigops)) && FinalPackage(pool, isFinal, old(inBlock), x)
      ensures took ==> old(blockWeight) <= blockWeight < maxWeight && old(blockSigOps) <= blockSigOps < MAX_BLOCK_SIGOPS_COST
      ensures took ==> |pool.Keys - inBlock| < |pool.Keys - old(inBlock)| && failures' == 0 && !giveUp
      ensures took ==> inBlock == old(inBlock) + Package(pool, x, old(inBlock)) && failed' == failed && history' == history
      ensures !took ==> vtx == old(vtx) && inBlock == old(inBlock)
      ensures !took ==> blockWeight == old(blockWeight) && blockSigOps == old(blockSigOps)
      ensures !took && fromModified ==>
                modified' == modified - {x} && failed' == failed + {x} && history' == Failed(history, x, inBlock)
      ensures !took && !fromModified ==> modified' == modified && failed' == failed && history' == history
      ensures !took ==> failures' == if old(TestPackage(figures.size, figures.sigops)) then failures else failures + 1
      ensures giveUp <==> !old(TestPackage(figures.size, figures.sigops))
                          && failures' > MAX_CONSECUTIVE_FAILURES && blockWeight > maxWeight - 4000
    {
      hide PoolOk, BooksOk, AncestorsFirst, Counted, Package, AtLeast, TrueFigures;
      modified', failed', failures', took, giveUp, history' := modified, failed, failures, false, false, history;
      BooksFail(pool, inBlock, modified, history, x);
      if !TestPackage(figures.size, figures.sigops) {
        if fromModified {
          modified' := modified - {x};
          failed' := failed + {x};
          history' := Failed(history, x, inBlock);
        }
        failures' := failures + 1;
        giveUp := failures' > MAX_CONSECUTIVE_FAILURES && blockWeight > maxWeight - 4000;
        return;
      }
      var package := Package(pool, x, inBlock);
      if exists y :: y in package && !isFinal(y) {
        if fromModified {
          modified' := modified - {x};
          failed' := failed + {x};
          history' := Failed(history, x, inBlock);
        }
        return;
      }
      failures' := 0;
      BlockGrows(pool, x, inBlock);
      modified' := TakePackage(x, figures, modified, history, from);
      FinalExtend(isFinal, old(vtx), vtx, from);
      took := true;
    }

    ghost function Outside(): nat
      reads this
    {
      |pool.Keys - inBlock|
    }

    /** What selection keeps, from place `from` of the block and entry `mi` of the pool's list on. */
    ghost predicate Selecting(order: seq<TxId>, mi: nat, modified: Modified, failed: set<TxId>, history: Failures, from: nat)
      reads this
    {
      && history.Keys == failed
      && mi <= |order| && Counted() && BooksOk(pool, inBlock, modified, history)
      && from <= |vtx| && AncestorsFirst(pool, vtx, from) && AllFinal(isFinal, vtx, from)
      && HistoryOk(pool, isFinal, maxWeight, vtx, from, history)
      && Settled(pool, isFinal, maxWeight, vtx, from, modified, failed + Elements(order[..mi]))
    }

    /** A candidate, with figures that leave out the ancestors that entered the block after its last failure. */
    ghost predicate IsCandidate(order: seq<TxId>, mi: nat, modified: Modified, failed: set<TxId>, history: Failures, x: TxId,
                                figures: Figures, fromModified: bool)
      reads this
    {
      && x in pool && x !in inBlock && figures == Believed(pool, x, inBlock, Since(history, x))
      && AtLeast(figures, TrueFigures(pool, x, inBlock))
      && (fromModified ==> x in modified && pool[x].ancestors * (inBlock - Since(history, x)) != {})
      && (!fromModified ==> mi < |order| && x == order[mi] && x !in modified && x !in failed)
    }

    /** The next entry of the pool's list or some modified entry, with its figures. */
    method NextCandidate(order: seq<TxId>, mi: nat, modified: Modified, failed: set<TxId>, ghost history: Failures,
                         ghost from: nat)
        returns (x: TxId, figures: Figures, usingModified: bool)
      requires PoolOk(pool) && Selecting(order, mi, modified, failed, history, from) && Elements(order) <= pool.Keys
      requires mi <= |order| && (mi < |order| || modified != map[])
      requires mi < |order| ==> order[mi] !in modified && order[mi] !in inBlock && order[mi] !in failed
      ensures IsCandidate(order, mi, modified, failed, history, x, figures, usingModified)
      ensures if usingModified then x in modified else mi < |order| && x == order[mi] && x !in modified && x !in failed
    {
      hide PoolOk, BooksOk, AtLeast, TrueFigures, Believed, Since, HistoryOk, Settled;
      BooksClosed(pool, inBlock, modified, history);
      usingModified := mi == |order|;
      if mi < |order| && modified != map[] {
        var better: bool := *;
        usingModified := better;
      }
      if usingModified {
        x :| x in modified;
      } else {
        x := order[mi];
        assert x in Elements(order);
      }
      CandidateOk(pool, inBlock, modified, history, x);
      CachedAtLeast(pool, x, inBlock, Since(history, x));
      figures := if usingModified then modified[x] else CachedFigures(pool, x);
    }

    /** Tries candidate `x` and moves on in the pool's list if that is where it came from. */
    method TryCandidate(order: seq<TxId>, mi: nat, x: TxId, figures: Figures, fromModified: bool, modified: Modified,
                        failed: set<TxId>, failures: nat, ghost history: Failures, ghost from: nat)
        returns (mi': nat, modified': Modified, failed': set<TxId>, failures': nat, took: bool, giveUp: bool,
                 ghost history': Failures)
      requires PoolOk(pool) && Selecting(order, mi, modified, failed, history, from)
      requires IsCandidate(order, mi, modified, failed, history, x, figures, fromModified)
      modifies this
      ensures Selecting(order, mi', modified', failed', history', from)
      ensures mi' == if fromModified then mi else mi + 1
      ensures old(vtx) <= vtx
      ensures giveUp <==>
        !took && failures' == failures + 1 && failures' > MAX_CONSECUTIVE_FAILURES && blockWeight > maxWeight - 4000
      ensures took ==> blockWeight < maxWeight && blockSigOps < MAX_BLOCK_SIGOPS_COST
      ensures took ==> Outside() < old(Outside()) && failures' == 0
      ensures !took ==> vtx == old(vtx) && inBlock == old(inBlock) && Outside() == old(Outside())
      ensures !took ==> blockWeight == old(blockWeight) && blockSigOps == old(blockSigOps)
      ensures !took ==> modified' == if fromModified then modified - {x} else modified
      ensures !took ==> failed' == if fromModified then failed + {x} else failed
      ensures !took && fromModified ==> |modified'| < |modified|
      ensures !took ==> failures' == failures || (failures' == failures + 1 && x in Bulky(pool, maxWeight, inBlock))
    {
      hide PoolOk, BooksOk, AncestorsFirst, Package, AtLeast, TrueFigures, AllFinal, Settled, FinalPackage, Sum, Elements;
      hide Since, HistoryOk, Failed, Believed, Bulky, RoomFor, Distinct;
      ghost var block, before, seen := inBlock, vtx, failed + Elements(order[..mi]);
      mi' := if fromModified then mi else mi + 1;
      RoomAsTested(figures);
      modified', failed', failures', took, giveUp, history' :=
        Consider(x, figures, fromModified, modified, failed, failures, history, from);
      if took {
        assert x in inBlock by { OwnPackage(pool, x, block); }
        SettledTake(pool, isFinal, maxWeight, before, vtx, from, modified, modified', history, seen);
        HistoryStays(pool, isFinal, maxWeight, before, vtx, from, history);
        SettledMore(pool, isFinal, maxWeight, vtx, from, modified', seen, x);
      } else {
        RefusedRightly(pool, isFinal, maxWeight, vtx, from, modified, history, seen, x, fromModified);
        if fromModified {
          assert modified.Keys == modified'.Keys + {x};
        }
      }
      SeenAfter(order, mi, failed, x, fromModified, took);
      SettledLess(pool, isFinal, maxWeight, vtx, from, modified', seen + {x}, failed' + Elements(order[..mi']));
    }

    /** What the loop keeps; `before` is the block it started from. */
    ghost predicate Going(order: seq<TxId>, p: Progress, a: Account, before: seq<TxId>)
      reads this
    {
      && p.mi <= |order| && Selecting(order, p.mi, p.modified, p.failed, a.history, |before|)
      && Refused(pool, maxWeight, inBlock, order, p.mi, p.modified, p.failed, a.refused, p.failures)
      && before <= vtx
      && (if p.packages == 0 then vtx == before else blockWeight < maxWeight && blockSigOps < MAX_BLOCK_SIGOPS_COST)
    }

    /** The next entry of the pool's list is stale. */
    predicate Stale(order: seq<TxId>, p: Progress)
      reads this
    {
      p.mi < |order| && (order[p.mi] in p.modified || order[p.mi] in inBlock || order[p.mi] in p.failed)
    }

    ghost function Measure(order: seq<TxId>, p: Progress): (nat, int, nat)
      reads this
    {
      (Outside(), |order| - p.mi, |p.modified|)
    }

    ghost predicate Lower(m: (nat, int, nat), n: (nat, int, nat)) {
      m.0 < n.0 || (m.0 == n.0 && (0 <= m.1 < n.1 || (m.1 == n.1 && m.2 < n.2)))
    }

    /** One round: picks a candidate, asks the fee policy, and tries it. */
    method Round(order: seq<TxId>, p: Progress, stop: bool, ghost a: Account, ghost before: seq<TxId>)
        returns (q: Progress, giveUp: bool, ghost b: Account)
      requires PoolOk(pool) && Elements(order) <= pool.Keys && Distinct(order)
      requires Going(order, p, a, before) && MoreToDo(order, p) && !Stale(order, p)
      modifies this
      ensures Going(order, q, b, before) && p.packages <= q.packages <= p.packages + 1
      ensures stop ==> q == p && !giveUp
      ensures !stop ==> Lower(Measure(order, q), old(Measure(order, p)))
      ensures giveUp ==> blockWeight > maxWeight - 4000 && |Bulky(pool, maxWeight, inBlock)| > MAX_CONSECUTIVE_FAILURES
    {
      hide PoolOk, Elements, Selecting, Outside, Bulky, Refused, Distinct, IsCandidate;
      var x, figures, usingModified := NextCandidate(order, p.mi, p.modified, p.failed, a.history, |before|);
      if stop {
        return p, false, a;
      }
      var mi, modified, failed, failures, took;
      ghost var history;
      mi, modified, failed, failures, took, giveUp, history :=
        TryCandidate(order, p.mi, x, figures, usingModified, p.modified, p.failed, p.failures, a.history, |before|);
      if took {
        RefusedNone(pool, maxWeight, inBlock, order, mi, modified, failed);
        q, b := Progress(mi, modified, failed, failures, p.packages + 1), Account(history, {});
      } else {
        ghost var refused := if failures == p.failures + 1 then a.refused + {x} else a.refused;
        RefusedOne(pool, maxWeight, inBlock, order, p.mi, x, usingModified, p.modified, p.failed, a.refused, p.failures,
                   failures == p.failures + 1);
        GivenUp(pool, maxWeight, inBlock, order, mi, modified, failed, refused, failures);
        q, b := Progress(mi, modified, failed, failures, p.packages), Account(history, refused);
      }
    }

    /** The test on the counters is the test on the block. */
    lemma RoomAsTested(f: Figures)
      requires Counted()
      ensures TestPackage(f.size, f.sigops) <==> RoomFor(pool, maxWeight, inBlock, f)
    {
      hide Sum;
    }

    /** Selects packages until no candidate is left, the fee policy stops it or the block is nearly full; `stopAt` is the
        candidate, by its number, that pays too little, and negative if none does. From a closed block, the block stays
        closed and free of duplicates, every transaction added comes after its ancestors and is final, and after each package
        weight and signature operations are strictly below their limits. It ends for lack of candidates unless the policy
        stopped it or it gave up; it gives up only with more than a thousand candidates left that do not fit with their cached
        figures. When no candidate is left, one that fits was misjudged; it has two ancestors in the block, one of which weighs
        less than reckoned and was added by the selection. */
    method AddPackageTxs(order: seq<TxId>, stopAt: int) returns (packages: nat, rounds: nat, ending: Ending)
      requires PoolOk(pool) && Counted() && Closed(pool, inBlock) && Elements(order) <= pool.Keys && Distinct(order)
      modifies this
      ensures Counted() && Closed(pool, inBlock)
      ensures old(vtx) <= vtx && AncestorsFirst(pool, vtx, |old(vtx)|)
      ensures AllFinal(isFinal, vtx, |old(vtx)|)
      ensures if packages == 0 then vtx == old(vtx) else blockWeight < maxWeight && blockSigOps < MAX_BLOCK_SIGOPS_COST
      ensures packages <= rounds && (0 <= stopAt ==> rounds <= stopAt) && (ending == PaysTooLittle ==> rounds == stopAt)
      ensures ending == NearlyFull ==>
                blockWeight > maxWeight - 4000 && |Bulky(pool, maxWeight, inBlock)| > MAX_CONSECUTIVE_FAILURES
      ensures ending == Exhausted ==> Settled(pool, isFinal, maxWeight, vtx, |old(vtx)|, map[], Elements(order))
      ensures ending == Exhausted ==> OnlyOverLight(pool, isFinal, maxWeight, vtx, |old(vtx)|, Elements(order))
      ensures ending == Exhausted && (forall y :: !Slack(pool, y)) ==>
                NothingFits(pool, isFinal, maxWeight, inBlock, Elements(order))
    {
      hide PoolOk, BooksOk, AncestorsFirst, Counted, Closed, Elements, AllFinal, Settled, Selecting, Bulky, Reduced, Slack;
      hide NothingFits, OnlyOverLight, Distinct, ModifiedOf;
      BooksInitial(pool, inBlock);
      CountedFacts();
      var modified: Modified := UpdatePackagesForAdded(pool, inBlock, map[]);
      SelectingStart(order, modified);
      ghost var p, a;
      packages, rounds, ending, p, a := Select(order, stopAt, modified);
      SelectingEnd(order, p.mi, p.modified, p.failed, a.history, |old(vtx)|);
    }

    /** The loop, from the modified entries of the mandatory transactions on. */
    method Select(order: seq<TxId>, stopAt: int, start: Modified)
        returns (packages: nat, rounds: nat, ending: Ending, ghost last: Progress, ghost account: Account)
      requires PoolOk(pool) && Elements(order) <= pool.Keys && Distinct(order)
      requires Selecting(order, 0, start, {}, map[], |vtx|)
      modifies this
      ensures Selecting(order, last.mi, last.modified, last.failed, account.history, |old(vtx)|)
      ensures old(vtx) <= vtx
      ensures if packages == 0 then vtx == old(vtx) else blockWeight < maxWeight && blockSigOps < MAX_BLOCK_SIGOPS_COST
      ensures packages <= rounds && (0 <= stopAt ==> rounds <= stopAt) && (ending == PaysTooLittle ==> rounds == stopAt)
      ensures ending == NearlyFull ==>
                blockWeight > maxWeight - 4000 && |Bulky(pool, maxWeight, inBlock)| > MAX_CONSECUTIVE_FAILURES
      ensures ending == Exhausted ==> last.mi == |order| && last.modified == map[]
    {
      hide PoolOk, Elements, Going, Selecting, Outside, Bulky, Distinct, Stale, Measure, MoreToDo;
      GoingStart(order, start);
      var p := Progress(0, start, {}, 0, 0);
      ghost var before := vtx;
      account := Account(map[], {});
      rounds, ending := 0, Exhausted;
      while MoreToDo(order, p)
        invariant Going(order, p, account, before)
        invariant ending == Exhausted && p.packages <= rounds && (0 <= stopAt ==> rounds <= stopAt)
        decreases Measure(order, p).0, Measure(order, p).1, Measure(order, p).2
      {
        if Stale(order, p) {
          GoingSkip(order, p, account, before);
          p := p.(mi := p.mi + 1);
          continue;
        }
        var giveUp;
        p, giveUp, account := Round(order, p, rounds == stopAt, account, before);
        if rounds == stopAt {
          ending := PaysTooLittle;
          break;
        }
        rounds := rounds + 1;
        if giveUp {
          ending := NearlyFull;
          break;
        }
      }
      packages, last := p.packages, p;
      GoingEnd(order, p, account, before);
    }

    lemma GoingStart(order: seq<TxId>, start: Modified)
      requires Selecting(order, 0, start, {}, map[], |vtx|)
      ensures Going(order, Progress(0, start, {}, 0, 0), Account(map[], {}), vtx)
    {
      hide Selecting;
      RefusedNone(pool, maxWeight, inBlock, order, 0, start, {});
    }

    lemma GoingSkip(order: seq<TxId>, p: Progress, a: Account, before: seq<TxId>)
      requires Going(order, p, a, before) && Stale(order, p)
      ensures Going(order, p.(mi := p.mi + 1), a, before)
      ensures Lower(Measure(order, p.(mi := p.mi + 1)), Measure(order, p))
    {
      hide Selecting, Refused, Outside;
      SelectingSkip(order, p.mi, p.modified, p.failed, a.history, |before|);
      RefusedSkip(pool, maxWeight, inBlock, order, p.mi, p.modified, p.failed, a.refused, p.failures);
    }

    lemma GoingEnd(order: seq<TxId>, p: Progress, a: Account, before: seq<TxId>)
      requires Going(order, p, a, before)
      ensures Selecting(order, p.mi, p.modified, p.failed, a.history, |before|) && before <= vtx
      ensures if p.packages == 0 then vtx == before else blockWeight < maxWeight && blockSigOps < MAX_BLOCK_SIGOPS_COST
      ensures !MoreToDo(order, p) ==> p.mi == |order| && p.modified == map[]
    {
      hide Selecting;
    }

    lemma CountedFacts()
      requires Counted()
      ensures inBlock <= pool.Keys
    {
    }

    lemma SelectingStart(order: seq<TxId>, modified: Modified)
      requires Counted() && BooksOk(pool, inBlock, modified, map[])
      ensures Selecting(order, 0, modified, {}, map[], |vtx|)
    {
      hide BooksOk, Counted;
      NothingToOrder(pool, isFinal, vtx);
      NothingSettled(pool, isFinal, maxWeight, vtx, modified, order);
      var none: Failures := map[];
      assert none.Keys == {};
    }

    lemma SelectingSkip(order: seq<TxId>, mi: nat, modified: Modified, failed: set<TxId>, history: Failures, from: nat)
      requires Selecting(order, mi, modified, failed, history, from) && mi < |order|
      requires order[mi] in modified || order[mi] in inBlock || order[mi] in failed
      ensures Selecting(order, mi + 1, modified, failed, history, from)
    {
      hide BooksOk, AncestorsFirst, AllFinal, Settled, Elements, Sum, HistoryOk;
      SettledMore(pool, isFinal, maxWeight, vtx, from, modified, failed + Elements(order[..mi]), order[mi]);
      OneFurther(order, mi, failed);
    }

    lemma SelectingEnd(order: seq<TxId>, mi: nat, modified: Modified, failed: set<TxId>, history: Failures, from: nat)
      requires PoolOk(pool) && Selecting(order, mi, modified, failed, history, from)
      ensures Counted() && Closed(pool, inBlock) && AncestorsFirst(pool, vtx, from) && AllFinal(isFinal, vtx, from)
      ensures mi == |order| && modified == map[] ==>
                Settled(pool, isFinal, maxWeight, vtx, from, map[], Elements(order))
      ensures from <= |vtx|
      ensures mi == |order| && modified == map[] ==>
                OnlyOverLight(pool, isFinal, maxWeight, vtx, from, Elements(order))
      ensures mi == |order| && modified == map[] && (forall y :: !Slack(pool, y)) ==>
                NothingFits(pool, isFinal, maxWeight, inBlock, Elements(order))
    {
      hide PoolOk, AncestorsFirst, AllFinal, Settled, Elements, Sum, HistoryOk, BooksOk, Slack, NothingFits, OnlyOverLight;
      BooksClosed(pool, inBlock, modified, history);
      if mi == |order| && modified == map[] {
        assert order[..mi] == order;
        SettledLess(pool, isFinal, maxWeight, vtx, from, map[], failed + Elements(order), Elements(order));
        NothingLeft(pool, isFinal, maxWeight, vtx, from, Elements(order));
      }
    }
  }

  /** Refusing a candidate keeps the account. */
  lemma RefusedRightly(pool: Pool, isFinal: TxId -> bool, maxWeight: int, vtx: seq<TxId>, from: nat, modified: Modified,
                       history: Failures, seen: set<TxId>, x: TxId, fromModified: bool)
    requires PoolOk(pool) && HistoryOk(pool, isFinal, maxWeight, vtx, from, history) && from <= |vtx|
    requires x in pool && x !in Elements(vtx) && Settled(pool, isFinal, maxWeight, vtx, from, modified, seen)
    requires !FinalPackage(pool, isFinal, Elements(vtx), x)
             || !RoomFor(pool, maxWeight, Elements(vtx), Believed(pool, x, Elements(vtx), Since(history, x)))
    requires fromModified ==> pool[x].ancestors * (Elements(vtx) - Since(history, x)) != {}
    requires !fromModified ==> x !in history
    ensures fromModified ==> HistoryOk(pool, isFinal, maxWeight, vtx, from, Failed(history, x, Elements(vtx)))
    ensures Settled(pool, isFinal, maxWeight, vtx, from, if fromModified then modified - {x} else modified, seen + {x})
    ensures !RoomFor(pool, maxWeight, Elements(vtx), Believed(pool, x, Elements(vtx), Since(history, x))) ==>
              x in Bulky(pool, maxWeight, Elements(vtx))
  {
    hide PoolOk, HistoryOk, Settled, FinalPackage, RoomFor, Believed, Since, Failed, Bulky, Elements, Fits, Misjudged;
    if !RoomFor(pool, maxWeight, Elements(vtx), Believed(pool, x, Elements(vtx), Since(history, x))) {
      IsBulky(pool, maxWeight, Elements(vtx), x, Since(history, x));
    }
    if fromModified {
      HistoryFail(pool, isFinal, maxWeight, vtx, from, history, x);
    } else {
      ListedExact(pool, isFinal, maxWeight, Elements(vtx), history, x);
    }
    SettledReject(pool, isFinal, maxWeight, vtx, from, modified, seen, x);
  }

  lemma SeenAfter(order: seq<TxId>, mi: nat, failed: set<TxId>, x: TxId, fromModified: bool, took: bool)
    requires mi <= |order| && (!fromModified ==> mi < |order| && x == order[mi])
    ensures var more := if fromModified && !took then failed + {x} else failed;
            more + Elements(order[..if fromModified then mi else mi + 1]) <= failed + Elements(order[..mi]) + {x}
  {
    hide Elements;
    if !fromModified {
      OneFurther(order, mi, failed);
    }
  }

  /** A candidate refused with exact figures does not fit. */
  lemma ListedExact(pool: Pool, isFinal: TxId -> bool, maxWeight: int, inBlock: set<TxId>, history: Failures, x: TxId)
    requires x in pool && x !in history
    requires !FinalPackage(pool, isFinal, inBlock, x)
             || !RoomFor(pool, maxWeight, inBlock, Believed(pool, x, inBlock, Since(history, x)))
    ensures !Fits(pool, isFinal, maxWeight, inBlock, x)
  {
    hide RoomFor;
    BelievedTrue(pool, x, inBlock, {});
  }

  lemma OwnPackage(pool: Pool, x: TxId, inBlock: set<TxId>)
    requires x in pool
    ensures x in Package(pool, x, inBlock)
  {
  }

  lemma NothingSettled(pool: Pool, isFinal: TxId -> bool, maxWeight: int, vtx: seq<TxId>, modified: Modified, order: seq<TxId>)
    ensures Settled(pool, isFinal, maxWeight, vtx, |vtx|, modified, {} + Elements(order[..0]))
    ensures HistoryOk(pool, isFinal, maxWeight, vtx, |vtx|, map[])
  {
  }

  lemma OneFurther(order: seq<TxId>, i: nat, failed: set<TxId>)
    requires i < |order|
    ensures failed + Elements(order[..i + 1]) == failed + Elements(order[..i]) + {order[i]}
  {
    assert order[..i + 1] == order[..i] + [order[i]];
  }

  // ----- where the code does less than it might -----

  /** A pool of two independent transactions and one that spends both. The second weighs less than four times its size. */
  const SAMPLE: Pool := map[1 := Tx(100, 400, 0, {}, 100, 0), 2 := Tx(100, 100, 0, {}, 100, 0),
                            3 := Tx(100, 400, 0, {1, 2}, 300, 0)]

  const SAMPLE_LIMIT: int := 5000

  lemma SampleSums()
    ensures FiguresOf(SAMPLE, {1}) == FiguresOf(SAMPLE, {2}) == FiguresOf(SAMPLE, {3}) == Figures(100, 0)
    ensures FiguresOf(SAMPLE, {2, 3}) == FiguresOf(SAMPLE, {1, 3}) == Figures(200, 0)
    ensures FiguresOf(SAMPLE, {1, 2, 3}) == Figures(300, 0)
    ensures Sum({}, Weight(SAMPLE)) == Sum({}, SigOps(SAMPLE)) == 0
    ensures Sum({1}, Weight(SAMPLE)) == 400 && Sum({1, 2}, Weight(SAMPLE)) == 500
    ensures Sum({1}, SigOps(SAMPLE)) == Sum({1, 2}, SigOps(SAMPLE)) == 0
  {
    forall f: TxId -> int
      ensures Sum({}, f) == 0 && Sum({1}, f) == f(1) && Sum({2}, f) == f(2) && Sum({3}, f) == f(3)
      ensures Sum({1, 2}, f) == f(1) + f(2) && Sum({1, 3}, f) == f(1) + f(3) && Sum({2, 3}, f) == f(2) + f(3)
      ensures Sum({1, 2, 3}, f) == f(1) + f(2) + f(3)
    {
      SmallSums(f);
    }
  }

  lemma SmallSums(f: TxId -> int)
    ensures Sum({}, f) == 0 && Sum({1}, f) == f(1) && Sum({2}, f) == f(2) && Sum({3}, f) == f(3)
    ensures Sum({1, 2}, f) == f(1) + f(2) && Sum({1, 3}, f) == f(1) + f(3) && Sum({2, 3}, f) == f(2) + f(3)
    ensures Sum({1, 2, 3}, f) == f(1) + f(2) + f(3)
  {
    var none: set<TxId> := {};
    SumAdd(none, f, 1);
    SumAdd(none, f, 2);
    SumAdd(none, f, 3);
    assert none + {1} == {1} && none + {2} == {2} && none + {3} == {3};
    SumAdd({1}, f, 2);
    SumAdd({1}, f, 3);
    SumAdd({2}, f, 3);
    assert {1} + {2} == {1, 2} && {1} + {3} == {1, 3} && {2} + {3} == {2, 3};
    SumAdd({1, 2}, f, 3);
    assert {1, 2} + {3} == {1, 2, 3};
  }

  lemma SampleOk()
    ensures PoolOk(SAMPLE)
  {
    SampleCached();
    hide FiguresOf, Sum, Size, SigOps;
    forall x | x in SAMPLE
      ensures SAMPLE[x].sizeWithAncestors == Sum(SAMPLE[x].ancestors + {x}, Size(SAMPLE))
      ensures SAMPLE[x].sigopsWithAncestors == Sum(SAMPLE[x].ancestors + {x}, SigOps(SAMPLE))
    {
      assert x == 1 || x == 2 || x == 3;
    }
  }

  lemma SampleCached()
    ensures forall x :: x in {1, 2, 3} ==>
      && Sum(SAMPLE[x].ancestors + {x}, Size(SAMPLE)) == CachedFigures(SAMPLE, x).size
      && Sum(SAMPLE[x].ancestors + {x}, SigOps(SAMPLE)) == CachedFigures(SAMPLE, x).sigops
  {
    SampleSums();
    var none: set<TxId> := {};
    assert none + {1} == {1} && none + {2} == {2} && {1, 2} + {3} == {1, 2, 3};
  }

  /** The figures of the third transaction: exact before it fails, and 100 too high once the second is in the block as well. */
  lemma SampleFigures()
    ensures TrueFigures(SAMPLE, 1, {}) == TrueFigures(SAMPLE, 2, {1}) == Figures(100, 0)
    ensures Believed(SAMPLE, 3, {1}, {}) == TrueFigures(SAMPLE, 3, {1}) == Figures(200, 0)
    ensures Believed(SAMPLE, 3, {1, 2}, {1}) == Figures(200, 0) && TrueFigures(SAMPLE, 3, {1, 2}) == Figures(100, 0)
  {
    SampleSums();
    var none: set<TxId> := {};
    assert Package(SAMPLE, 1, none) == {1} && Package(SAMPLE, 2, {1}) == {2};
    assert Counting(SAMPLE, 3, {1}, none) == Package(SAMPLE, 3, {1}) == {2, 3};
    assert Counting(SAMPLE, 3, {1, 2}, {1}) == {1, 3} && Package(SAMPLE, 3, {1, 2}) == {3};
  }

  /** The sample block with these transactions and books. */
  ghost predicate SampleBlock(a: BlockAssembler, block: set<TxId>, modified: Modified, failed: set<TxId>, history: Failures)
    reads a
  {
    && a.pool == SAMPLE && a.maxWeight == SAMPLE_LIMIT && (forall x :: a.isFinal(x))
    && a.Counted() && a.inBlock == block && BooksOk(SAMPLE, block, modified, history) && history.Keys == failed
    && AncestorsFirst(SAMPLE, a.vtx, 0) && AllFinal(a.isFinal, a.vtx, 0)
  }

  /** One candidate of the sample. */
  method SampleStep(a: BlockAssembler, x: TxId, figures: Figures, modified: Modified, failed: set<TxId>, ghost history: Failures)
      returns (took: bool, modified': Modified, failed': set<TxId>, ghost history': Failures)
    requires SampleBlock(a, a.inBlock, modified, failed, history)
    requires x in SAMPLE && x !in a.inBlock && AtLeast(figures, TrueFigures(SAMPLE, x, a.inBlock))
    modifies a
    ensures took <==> RoomFor(SAMPLE, SAMPLE_LIMIT, old(a.inBlock), figures)
    ensures SampleBlock(a, if took then old(a.inBlock) + Package(SAMPLE, x, old(a.inBlock)) else old(a.inBlock),
                        modified', failed', history')
    ensures history' == if took || x !in modified then history else Failed(history, x, old(a.inBlock))
    ensures !took ==> modified' == modified - {x}
  {
    hide PoolOk, BooksOk, FiguresOf, Sum, Closed, AtLeast, TrueFigures, AncestorsFirst, AllFinal, Package, Weight, SigOps, Failed;
    SampleOk();
    a.RoomAsTested(figures);
    var failures, giveUp;
    modified', failed', failures, took, giveUp, history' :=
      a.Consider(x, figures, x in modified, modified, failed, 0, history, 0);
  }

  /** A run in which a candidate that fits is refused: the third transaction fails while only the first is in the block, and
      is judged again after the second came in, on figures that count the first once more. */
  method RefusedThoughFitting() returns (a: BlockAssembler, took: bool)
    ensures a.pool == SAMPLE && a.maxWeight == SAMPLE_LIMIT && a.inBlock == {1, 2}
    ensures !took && Fits(SAMPLE, a.isFinal, SAMPLE_LIMIT, a.inBlock, 3)
  {
    hide BooksOk, FiguresOf, Sum, SampleBlock, AncestorsFirst, AllFinal, Believed, TrueFigures, Weight, SigOps;
    SampleSums();
    SampleFigures();
    a := new BlockAssembler(SAMPLE, SAMPLE_LIMIT, _ => true);
    var modified: Modified, failed: set<TxId> := map[], {};
    ghost var history: Failures := map[];
    SampleStart(a);
    SampleFacts(a, {}, modified, failed, history);
    took, modified, failed, history := SampleStep(a, 1, Figures(100, 0), modified, failed, history);
    SampleGrows();
    SampleFacts(a, {1}, modified, failed, history);
    SampleEntry({1}, modified, history);
    took, modified, failed, history := SampleStep(a, 3, modified[3], modified, failed, history);
    SampleFacts(a, {1}, modified, failed, history);
    took, modified, failed, history := SampleStep(a, 2, Figures(100, 0), modified, failed, history);
    SampleFacts(a, {1, 2}, modified, failed, history);
    SampleEntry({1, 2}, modified, history);
    took, modified, failed, history := SampleStep(a, 3, modified[3], modified, failed, history);
    SampleFacts(a, {1, 2}, modified, failed, history);
  }

  lemma SampleFacts(a: BlockAssembler, block: set<TxId>, modified: Modified, failed: set<TxId>, history: Failures)
    requires SampleBlock(a, block, modified, failed, history)
    ensures a.inBlock == block && BooksOk(SAMPLE, block, modified, history) && forall x :: a.isFinal(x)
    ensures a.pool == SAMPLE && a.maxWeight == SAMPLE_LIMIT
  {
  }

  lemma SampleGrows()
    ensures {} + Package(SAMPLE, 1, {}) == {1} && {1} + Package(SAMPLE, 2, {1}) == {1, 2}
  {
  }

  lemma SampleStart(a: BlockAssembler)
    requires a.pool == SAMPLE && a.maxWeight == SAMPLE_LIMIT && (forall x :: a.isFinal(x)) && a.Counted()
    requires a.inBlock == {} && a.vtx == []
    ensures SampleBlock(a, {}, map[], {}, map[])
  {
    var m: Modified := ModifiedOf(SAMPLE, {}, map[]);
    assert m == map[];
    var none: Failures := map[];
    assert none.Keys == {};
  }

  lemma SampleEntry(block: set<TxId>, modified: Modified, history: Failures)
    requires BooksOk(SAMPLE, block, modified, history) && block <= {1, 2} && 1 in block
    requires 3 in history ==> history[3].last == {1} && 2 in block
    requires 3 !in history ==> block == {1}
    ensures 3 in modified && modified[3] == Believed(SAMPLE, 3, block, if 3 in history then {1} else {})
  {
    assert (if 3 in history then 2 else 1) in SAMPLE[3].ancestors * (block - Since(history, 3));
  }

  /** An in-block transaction becomes a candidate again exactly when it descends from what is added. */
  lemma ReentersBooks(pool: Pool, modified: Modified, added: set<TxId>, x: TxId)
    requires modified.Keys <= pool.Keys && x in pool && x !in added && x !in modified
    ensures x in Reduced(pool, modified, added, added) <==> pool[x].ancestors * added != {}
  {
    hide FiguresOf, Minus, Start;
  }

  /** So the bookkeeping keeps the transactions of a block out of the modified entries, whatever is added, exactly when the
      block is closed. */
  lemma ClosedExactly(pool: Pool, inBlock: set<TxId>, modified: Modified)
    requires PoolOk(pool) && inBlock <= pool.Keys && modified.Keys <= pool.Keys && modified.Keys !! inBlock
    ensures Closed(pool, inBlock) <==>
              forall added: set<TxId> :: added <= pool.Keys && added !! inBlock ==>
                Reduced(pool, modified, added, added).Keys !! inBlock
  {
    hide PoolOk, Reduced;
    if Closed(pool, inBlock) {
      forall added: set<TxId> | added <= pool.Keys && added !! inBlock
        ensures Reduced(pool, modified, added, added).Keys !! inBlock
      {
        NoneReenters(pool, inBlock, modified, added);
      }
    } else {
      var y := OrphanReenters(pool, inBlock, modified);
      assert {y} <= pool.Keys && {y} !! inBlock;
      assert !(Reduced(pool, modified, {y}, {y}).Keys !! inBlock);
    }
  }

  lemma OrphanReenters(pool: Pool, inBlock: set<TxId>, modified: Modified) returns (y: TxId)
    requires PoolOk(pool) && inBlock <= pool.Keys && modified.Keys <= pool.Keys && modified.Keys !! inBlock
    requires !Closed(pool, inBlock)
    ensures y in pool && y !in inBlock && !(Reduced(pool, modified, {y}, {y}).Keys !! inBlock)
  {
    hide Reduced;
    var x :| x in inBlock && !(pool[x].ancestors <= inBlock);
    y :| y in pool[x].ancestors && y !in inBlock;
    ReentersBooks(pool, modified, {y}, x);
    assert y in pool[x].ancestors * {y};
    assert x in Reduced(pool, modified, {y}, {y});
  }

  lemma NoneReenters(pool: Pool, inBlock: set<TxId>, modified: Modified, added: set<TxId>)
    requires Closed(pool, inBlock) && modified.Keys <= pool.Keys && modified.Keys !! inBlock
    requires added <= pool.Keys && added !! inBlock
    ensures Reduced(pool, modified, added, added).Keys !! inBlock
  {
    hide Reduced;
    forall x | x in inBlock
      ensures x !in Reduced(pool, modified, added, added)
    {
      ReentersBooks(pool, modified, added, x);
      assert pool[x].ancestors * added == {};
    }
  }

  /** A vote in the block whose parent is not: adding the parent puts the vote among the modified candidates. */
  lemma OrphanedVoteIsModified()
    ensures !Closed(SAMPLE, {3}) && 3 in Reduced(SAMPLE, map[], {1}, {1})
  {
    ReentersBooks(SAMPLE, map[], {1}, 3);
    assert 1 in SAMPLE[3].ancestors * {1};
    assert 1 !in {3};
  }
}

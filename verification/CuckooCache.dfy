/**
  The signature cache: a table in which every element has eight possible places, with lazily erased entries and two epochs.
  Hashes are an arbitrary function, so every statement holds for any of them.
 */
module CuckooCache {

  import opened Bytes
  import opened Numbers

  const WORD: nat := 0x1_0000_0000

  type Word = x: int | 0 <= x < WORD

  type HashFn<!T> = (nat, T) -> Word

  // ----- collection flags -----

  /** One flag for each entry, packed eight to a byte. */
  class BitPackedFlags {
    const mem: array<bv8>

    ghost predicate Has(n: nat) {
      n <= 8 * mem.Length
    }

    ghost predicate IsSet(s: nat)
      requires s < 8 * mem.Length
      reads mem
    {
      FlagAt(mem[..], s)
    }

    /** All flags start out set. */
    constructor (size: nat)
      ensures fresh(mem) && Has(size) && mem.Length == (size + 7) / 8
      ensures forall s: nat :: s < 8 * mem.Length ==> IsSet(s)
    {
      hide BitSet;
      mem := new bv8[(size + 7) / 8](_ => 0xff);
      new;
      forall s: nat | s < 8 * mem.Length ensures IsSet(s) {
        AllOrNothing(s % 8);
      }
    }

    method MarkSet(s: nat)
      requires s < 8 * mem.Length
      modifies mem
      ensures forall q: nat :: q < 8 * mem.Length ==> (IsSet(q) <==> q == s || old(IsSet(q)))
    {
      hide BitSet, OrBit, FlagAt;
      ghost var before := mem[..];
      mem[s / 8] := OrBit(mem[s / 8], s % 8, true);
      forall q: nat | q < 8 * mem.Length ensures IsSet(q) <==> q == s || FlagAt(before, q) {
        FlagSet(before, mem[..], true, s, q);
      }
    }

    method MarkUnset(s: nat)
      requires s < 8 * mem.Length
      modifies mem
      ensures forall q: nat :: q < 8 * mem.Length ==> (IsSet(q) <==> q != s && old(IsSet(q)))
    {
      hide BitSet, ClearBit, FlagAt;
      ghost var before := mem[..];
      mem[s / 8] := ClearBit(mem[s / 8], s % 8);
      forall q: nat | q < 8 * mem.Length ensures IsSet(q) <==> q != s && FlagAt(before, q) {
        FlagCleared(before, mem[..], s, q);
      }
    }

    method Marked(s: nat) returns (r: bool)
      requires s < 8 * mem.Length
      ensures r == IsSet(s)
    {
      r := BitSet(mem[s / 8], s % 8);
    }
  }

  // ----- places -----

  /** A hash, read as a fraction, scaled to the table. */
  function Loc<T>(hash: HashFn<T>, size: nat, k: nat, e: T): (r: nat)
    ensures size > 0 ==> r < size
  {
    assert size > 0 ==> (hash(k, e) * size) / WORD < size by {
      if size > 0 {
        MulLess(size, hash(k, e), WORD);
        QuotientBelow(hash(k, e) * size, size, WORD);
      }
    }
    (hash(k, e) * size) / WORD
  }

  function Locs<T>(hash: HashFn<T>, size: nat, e: T): (r: seq<nat>)
    ensures |r| == 8 && forall k :: 0 <= k < 8 ==> size > 0 ==> r[k] < size
  {
    [Loc(hash, size, 0, e), Loc(hash, size, 1, e), Loc(hash, size, 2, e), Loc(hash, size, 3, e),
     Loc(hash, size, 4, e), Loc(hash, size, 5, e), Loc(hash, size, 6, e), Loc(hash, size, 7, e)]
  }

  // ----- the slots -----

  /** Elements, discardable entries and recent entries. */
  datatype Slots<T> = Slots(table: seq<T>, collected: seq<bool>, epoch: seq<bool>)

  /** `e` would be found. */
  ghost predicate Found<T>(hash: HashFn<T>, s: Slots<T>, e: T) {
    exists k :: 0 <= k < 8 && Sits(hash, s, e, k)
  }

  ghost predicate Sits<T>(hash: HashFn<T>, s: Slots<T>, e: T, k: nat)
    requires k < 8
  {
    Locs(hash, |s.table|, e)[k] < |s.table| && s.table[Locs(hash, |s.table|, e)[k]] == e
  }

  /** `e` is in an entry that is not discardable. */
  ghost predicate Live<T>(s: Slots<T>, e: T) {
    exists i :: 0 <= i < |s.table| == |s.collected| && s.table[i] == e && !s.collected[i]
  }

  /** `e` is in an entry that is not discardable, of the current epoch or an older one. */
  ghost predicate LiveAs<T>(s: Slots<T>, e: T, recent: bool) {
    exists i :: 0 <= i < |s.table| == |s.collected| == |s.epoch| && s.table[i] == e && !s.collected[i] && s.epoch[i] == recent
  }

  /** Every live entry, and every entry ever filled, is at one of its element's places. */
  ghost predicate Placed<T>(hash: HashFn<T>, s: Slots<T>, blank: T) {
    forall i {:trigger s.table[i]} :: 0 <= i < |s.table| == |s.collected| && (s.table[i] != blank || !s.collected[i]) ==>
      i in Locs(hash, |s.table|, s.table[i])
  }

  /** No element but the blank one is in two entries. */
  ghost predicate Distinct<T>(s: Slots<T>, blank: T) {
    forall i, j :: 0 <= i < j < |s.table| && s.table[i] == s.table[j] ==> s.table[i] == blank
  }

  ghost predicate Absent<T>(s: Slots<T>, e: T, blank: T) {
    e == blank || e !in s.table
  }

  /** Counting set flags. */
  ghost function Count(c: seq<bool>): nat {
    if c == [] then 0 else Count(c[..|c| - 1]) + if c[|c| - 1] then 1 else 0
  }

  lemma {:induction false} CountUpdate(c: seq<bool>, i: nat, b: bool)
    requires i < |c|
    ensures Count(c[i := b]) == Count(c) - (if c[i] then 1 else 0) + if b then 1 else 0
  {
    var n := |c| - 1;
    if i == n {
      assert c[i := b][..n] == c[..n];
    } else {
      CountUpdate(c[..n], i, b);
      assert c[i := b][..n] == c[..n][i := b];
    }
  }

  lemma {:induction false} CountNone(c: seq<bool>)
    requires forall i :: 0 <= i < |c| ==> !c[i]
    ensures Count(c) == 0
  {
    if c != [] {
      CountNone(c[..|c| - 1]);
    }
  }

  lemma {:induction false} CountFewer(c: seq<bool>, d: seq<bool>)
    requires |c| == |d| && forall i :: 0 <= i < |c| && c[i] ==> d[i]
    ensures Count(c) <= Count(d)
  {
    if c != [] {
      CountFewer(c[..|c| - 1], d[..|d| - 1]);
    }
  }

  /** The live entries of the current epoch. */
  ghost function Current<T>(s: Slots<T>): (r: seq<bool>)
    requires |s.collected| == |s.epoch|
    ensures |r| == |s.epoch| && forall i :: 0 <= i < |r| ==> r[i] == (s.epoch[i] && !s.collected[i])
  {
    seq(|s.epoch|, i requires 0 <= i < |s.epoch| == |s.collected| => s.epoch[i] && !s.collected[i])
  }

  ghost function Recent<T>(s: Slots<T>): nat
    requires |s.collected| == |s.epoch|
  {
    Count(Current(s))
  }

  /** Fills an entry and keeps it. */
  function Put<T>(s: Slots<T>, loc: nat, e: T, epoch: bool): Slots<T>
    requires loc < |s.table| == |s.collected| == |s.epoch|
  {
    Slots(s.table[loc := e], s.collected[loc := false], s.epoch[loc := epoch])
  }

  lemma RecentPut<T>(s: Slots<T>, loc: nat, e: T, epoch: bool)
    requires loc < |s.table| == |s.collected| == |s.epoch|
    ensures Recent(Put(s, loc, e, epoch)) == Recent(s) - (if Current(s)[loc] then 1 else 0) + if epoch then 1 else 0
  {
    hide Count;
    assert Current(Put(s, loc, e, epoch)) == Current(s)[loc := epoch];
    CountUpdate(Current(s), loc, epoch);
  }

  // ----- one insert -----

  /** What should be live after an insert: the new element as a recent one, all others as before. */
  ghost predicate Due<T>(s0: Slots<T>, e0: T, x: T, recent: bool) {
    if x == e0 then recent else LiveAs(s0, x, recent)
  }

  /** While `e` is in hand, everything that was found before, and the new element, is in hand or still found; everything that
      should be live is in hand or live, with its epoch. */
  ghost predicate Kept<T(!new)>(hash: HashFn<T>, s0: Slots<T>, e0: T, s: Slots<T>, e: T, epoch: bool) {
    && (forall x :: x == e0 || Found(hash, s0, x) ==> x == e || Found(hash, s, x))
    && (forall x, b :: Due(s0, e0, x, b) ==> (x == e && b == epoch) || LiveAs(s, x, b))
  }

  lemma KeptStart<T(!new)>(hash: HashFn<T>, s: Slots<T>, e: T)
    ensures Kept(hash, s, e, s, e, true)
  {
  }

  lemma FoundAfterPut<T(!new)>(hash: HashFn<T>, s: Slots<T>, loc: nat, e: T, epoch: bool, x: T)
    requires loc < |s.table| == |s.collected| == |s.epoch| && loc in Locs(hash, |s.table|, e)
    requires x == e || (Found(hash, s, x) && x != s.table[loc])
    ensures Found(hash, Put(s, loc, e, epoch), x)
  {
    hide Locs;
    var t := Put(s, loc, e, epoch);
    if x == e {
      var k :| 0 <= k < 8 && Locs(hash, |s.table|, e)[k] == loc;
      assert Sits(hash, t, x, k);
    } else {
      var k :| 0 <= k < 8 && Sits(hash, s, x, k);
      assert Sits(hash, t, x, k);
    }
  }

  lemma LiveAfterPut<T(!new)>(s: Slots<T>, loc: nat, e: T, epoch: bool, x: T, b: bool)
    requires loc < |s.table| == |s.collected| == |s.epoch|
    requires (x == e && b == epoch) || (LiveAs(s, x, b) && (s.collected[loc] || x != s.table[loc] || b != s.epoch[loc]))
    ensures LiveAs(Put(s, loc, e, epoch), x, b)
  {
    var t := Put(s, loc, e, epoch);
    if x == e && b == epoch {
      assert t.table[loc] == e && !t.collected[loc] && t.epoch[loc] == b;
    } else {
      var i :| 0 <= i < |s.table| && s.table[i] == x && !s.collected[i] && s.epoch[i] == b;
      assert t.table[i] == x && !t.collected[i] && t.epoch[i] == b;
    }
  }

  /** Swapping with an entry leaves its element in hand, with its epoch. */
  lemma KeptSwap<T(!new)>(hash: HashFn<T>, s0: Slots<T>, e0: T, s: Slots<T>, e: T, loc: nat, epoch: bool)
    requires Kept(hash, s0, e0, s, e, epoch)
    requires loc < |s.table| == |s.collected| == |s.epoch| && loc in Locs(hash, |s.table|, e)
    ensures Kept(hash, s0, e0, Put(s, loc, e, epoch), s.table[loc], s.epoch[loc])
  {
    hide Found, LiveAs, Locs, Put, Due;
    var t := Put(s, loc, e, epoch);
    forall x | (x == e0 || Found(hash, s0, x)) && x != s.table[loc] ensures Found(hash, t, x) {
      FoundAfterPut(hash, s, loc, e, epoch, x);
    }
    forall x, b | Due(s0, e0, x, b) && !(x == s.table[loc] && b == s.epoch[loc]) ensures LiveAs(t, x, b) {
      LiveAfterPut(s, loc, e, epoch, x, b);
    }
  }

  /** Everything found before is found after, but for one element. The new element is live and recent and everything else live
      before is live after, with its epoch, but for that one element when the search gave up. */
  ghost predicate Inserted<T(!new)>(hash: HashFn<T>, s0: Slots<T>, e0: T, s: Slots<T>, lost: T, complete: bool) {
    && (forall x :: (x == e0 || Found(hash, s0, x)) && x != lost ==> Found(hash, s, x))
    && (forall x, b :: Due(s0, e0, x, b) && (x != lost || complete) ==> LiveAs(s, x, b))
  }

  lemma KeptPut<T(!new)>(hash: HashFn<T>, s0: Slots<T>, e0: T, s: Slots<T>, e: T, loc: nat, epoch: bool)
    requires Kept(hash, s0, e0, s, e, epoch)
    requires loc < |s.table| == |s.collected| == |s.epoch| && loc in Locs(hash, |s.table|, e)
    requires s.collected[loc] || (s.table[loc] == e == e0 && epoch)
    ensures Inserted(hash, s0, e0, Put(s, loc, e, epoch), s.table[loc], true)
  {
    hide Found, LiveAs, Locs, Put;
    var t := Put(s, loc, e, epoch);
    forall x | (x == e0 || Found(hash, s0, x)) && x != s.table[loc] ensures Found(hash, t, x) {
      FoundAfterPut(hash, s, loc, e, epoch, x);
    }
    forall x, b | Due(s0, e0, x, b) ensures LiveAs(t, x, b) {
      LiveAfterPut(s, loc, e, epoch, x, b);
    }
  }

  lemma PutKeeps<T(!new)>(hash: HashFn<T>, s: Slots<T>, loc: nat, e: T, epoch: bool, blank: T)
    requires loc < |s.table| == |s.collected| == |s.epoch| && loc in Locs(hash, |s.table|, e)
    requires Placed(hash, s, blank) && Distinct(s, blank)
    requires Absent(s, e, blank) || s.table[loc] == e
    ensures Placed(hash, Put(s, loc, e, epoch), blank) && Distinct(Put(s, loc, e, epoch), blank)
    ensures Absent(s, e, blank) ==> Absent(Put(s, loc, e, epoch), s.table[loc], blank)
  {
    hide Locs;
  }

  /** An element that is at none of its places is nowhere. */
  lemma NotFoundAbsent<T(!new)>(hash: HashFn<T>, s: Slots<T>, e: T, blank: T)
    requires |s.table| == |s.collected| && Placed(hash, s, blank)
    requires forall k :: 0 <= k < 8 ==> Locs(hash, |s.table|, e)[k] < |s.table| && s.table[Locs(hash, |s.table|, e)[k]] != e
    ensures Absent(s, e, blank)
  {
    hide Locs;
  }

  // ----- epochs -----

  /** A new epoch: entries of the old one become discardable, the current ones become old. */
  ghost function Aged<T>(s: Slots<T>): (r: Slots<T>)
    requires |s.collected| == |s.epoch|
    ensures r.table == s.table && |r.collected| == |s.collected| && |r.epoch| == |s.epoch|
    ensures forall i :: 0 <= i < |s.epoch| ==> !r.epoch[i] && r.collected[i] == (s.collected[i] || !s.epoch[i])
  {
    Slots(s.table, seq(|s.epoch|, i requires 0 <= i < |s.epoch| == |s.collected| => s.collected[i] || !s.epoch[i]),
          seq(|s.epoch|, _ => false))
  }

  /** What the check before an insert leaves. */
  ghost function Checked<T>(s: Slots<T>, counter: nat, epochSize: nat): Slots<T>
    requires |s.collected| == |s.epoch|
  {
    if counter == 0 && Recent(s) >= epochSize then Aged(s) else s
  }

  function Max(a: nat, b: nat): nat {
    if a < b then b else a
  }

  /** How many inserts to wait for the next look at the epoch. */
  ghost function NextCheck(counter: nat, recent: nat, epochSize: nat): nat {
    if counter > 0 then counter - 1
    else if recent >= epochSize then epochSize
    else Max(1, Max(epochSize / 16, epochSize - recent))
  }

  function Bound(epochSize: nat): nat {
    epochSize + Max(1, epochSize / 16)
  }

  lemma AgedKeeps<T(!new)>(hash: HashFn<T>, s: Slots<T>, blank: T)
    requires |s.table| == |s.collected| == |s.epoch| && Placed(hash, s, blank) && Distinct(s, blank)
    ensures Placed(hash, Aged(s), blank) && Distinct(Aged(s), blank) && Recent(Aged(s)) == 0
  {
    hide Locs;
    CountNone(Current(Aged(s)));
  }

  lemma CheckedFound<T(!new)>(hash: HashFn<T>, s: Slots<T>, counter: nat, epochSize: nat, x: T)
    requires |s.collected| == |s.epoch|
    ensures Found(hash, Checked(s, counter, epochSize), x) <==> Found(hash, s, x)
  {
    hide Locs;
    var t := Checked(s, counter, epochSize);
    assert forall k :: 0 <= k < 8 ==> (Sits(hash, s, x, k) <==> Sits(hash, t, x, k));
  }

  lemma FreshSlots<T(!new)>(hash: HashFn<T>, s: Slots<T>, blank: T)
    requires |s.table| == |s.collected| == |s.epoch|
    requires forall i :: 0 <= i < |s.table| ==> s.table[i] == blank && s.collected[i] && !s.epoch[i]
    ensures Placed(hash, s, blank) && Distinct(s, blank) && Recent(s) == 0 && forall x :: !Live(s, x)
  {
    hide Locs;
    CountNone(Current(s));
  }

  // ----- the cache -----

  /** The place after the one last used, wrapping around; the second one when the last used is not among them. */
  function NextLoc(locs: seq<nat>, last: int): (r: nat)
    requires |locs| == 8
    ensures r in locs
    ensures last !in locs ==> r == locs[1]
    ensures last in locs ==> exists i :: 0 <= i < 8 && locs[i] == last && last !in locs[..i] && r == locs[(i + 1) % 8]
  {
    var i := Find(locs, last, 0);
    assert last in locs ==> i < 8 && locs[i] == last && last !in locs[..i];
    locs[(1 + i) % 8]
  }

  function Find(locs: seq<nat>, x: int, from: nat): (r: nat)
    requires from <= |locs|
    ensures from <= r <= |locs| && (r < |locs| ==> locs[r] == x) && forall k :: from <= k < r ==> locs[k] != x
    decreases |locs| - from
  {
    if from == |locs| || locs[from] == x then from else Find(locs, x, from + 1)
  }

  // ----- the chain of swaps -----

  /** A search for a place: the slots, the element in hand with its epoch, and the place it was taken from. */
  datatype Search<T> = Search(slots: Slots<T>, hand: T, last: int, epoch: bool)

  ghost predicate Sized<T>(s: Slots<T>) {
    0 < |s.table| == |s.collected| == |s.epoch|
  }

  /** Exchanges the element in hand for the one at its next place. */
  ghost function Swap<T>(hash: HashFn<T>, c: Search<T>): (r: Search<T>)
    requires Sized(c.slots)
    ensures Sized(r.slots) && |r.slots.table| == |c.slots.table|
  {
    var loc := NextLoc(Locs(hash, |c.slots.table|, c.hand), c.last);
    Search(Put(c.slots, loc, c.hand, c.epoch), c.slots.table[loc], loc, c.slots.epoch[loc])
  }

  /** The search for a place for `e` after `n` swaps. */
  ghost function Swaps<T>(hash: HashFn<T>, s: Slots<T>, e: T, n: nat): (r: Search<T>)
    requires Sized(s)
    ensures Sized(r.slots) && |r.slots.table| == |s.table|
  {
    if n == 0 then Search(s, e, -1, true) else Swap(hash, Swaps(hash, s, e, n - 1))
  }

  /** Place `k` of the element in hand is discardable. */
  ghost predicate RoomAt<T>(hash: HashFn<T>, c: Search<T>, k: nat)
    requires Sized(c.slots) && k < 8
  {
    c.slots.collected[Locs(hash, |c.slots.table|, c.hand)[k]]
  }

  /** It is the first of them. */
  ghost predicate FirstRoom<T>(hash: HashFn<T>, c: Search<T>, k: nat)
    requires Sized(c.slots)
  {
    k < 8 && RoomAt(hash, c, k) && forall j :: 0 <= j < k ==> !RoomAt(hash, c, j)
  }

  /** After `n` swaps, the element in hand has a discardable place. */
  ghost predicate RoomAfter<T>(hash: HashFn<T>, s: Slots<T>, e: T, n: nat)
    requires Sized(s)
  {
    exists k :: 0 <= k < 8 && RoomAt(hash, Swaps(hash, s, e, n), k)
  }

  /** The search ends after `n` swaps with the element in hand at its place `k`, over `lost`. */
  ghost predicate EndsAt<T>(hash: HashFn<T>, s: Slots<T>, e: T, n: nat, k: nat, after: Slots<T>, lost: T)
    requires Sized(s)
  {
    var c := Swaps(hash, s, e, n);
    && FirstRoom(hash, c, k) && (forall m :: 0 <= m < n ==> !RoomAfter(hash, s, e, m))
    && var loc := Locs(hash, |s.table|, c.hand)[k];
       after == Put(c.slots, loc, c.hand, c.epoch) && lost == c.slots.table[loc]
  }

  /** What an insert does, step by step: an element found at one of its places is refreshed there; otherwise the first
      discardable place met by the chain of swaps is filled; and when none is met within the limit, the element then in hand
      is dropped. */
  ghost predicate Searched<T>(hash: HashFn<T>, s: Slots<T>, e: T, limit: nat, after: Slots<T>, lost: T, complete: bool)
    requires Sized(s)
  {
    && (complete <==> Found(hash, s, e) || exists n :: 0 <= n < limit && RoomAfter(hash, s, e, n))
    && (if Found(hash, s, e) then lost == e && Refreshed(hash, s, e, after)
        else if complete then exists n, k :: 0 <= n < limit && EndsAt(hash, s, e, n, k, after, lost)
        else after == Swaps(hash, s, e, limit).slots && lost == Swaps(hash, s, e, limit).hand)
  }

  ghost predicate Refreshed<T>(hash: HashFn<T>, s: Slots<T>, e: T, after: Slots<T>)
    requires Sized(s)
  {
    exists k :: 0 <= k < 8 && Sits(hash, s, e, k) && after == Put(s, Locs(hash, |s.table|, e)[k], e, true)
  }

  lemma SwapsStart<T>(hash: HashFn<T>, s: Slots<T>, e: T)
    requires Sized(s)
    ensures Swaps(hash, s, e, 0) == Search(s, e, -1, true)
  {
  }

  lemma SwapsStep<T>(hash: HashFn<T>, s: Slots<T>, e: T, n: nat, c: Search<T>, loc: nat)
    requires Sized(s) && c == Swaps(hash, s, e, n) && loc == NextLoc(Locs(hash, |s.table|, c.hand), c.last)
    ensures loc < |s.table| && loc in Locs(hash, |s.table|, c.hand)
    ensures Swaps(hash, s, e, n + 1) == Search(Put(c.slots, loc, c.hand, c.epoch), c.slots.table[loc], loc, c.slots.epoch[loc])
  {
    hide Locs, Put, NextLoc;
  }

  lemma SearchFound<T>(hash: HashFn<T>, s: Slots<T>, e: T, limit: nat, loc: nat)
    requires Sized(s) && loc in Locs(hash, |s.table|, e) && loc < |s.table| && s.table[loc] == e
    ensures Searched(hash, s, e, limit, Put(s, loc, e, true), e, true)
  {
    hide Locs, Put;
    var k :| 0 <= k < 8 && Locs(hash, |s.table|, e)[k] == loc;
    assert Sits(hash, s, e, k);
  }

  lemma NotAtHome<T>(hash: HashFn<T>, s: Slots<T>, e: T)
    requires Sized(s) && forall k :: 0 <= k < 8 ==> s.table[Locs(hash, |s.table|, e)[k]] != e
    ensures !Found(hash, s, e)
  {
    hide Locs;
  }

  lemma SearchEnds<T>(hash: HashFn<T>, s: Slots<T>, e: T, limit: nat, n: nat, k: nat)
    requires Sized(s) && !Found(hash, s, e) && n < limit && FirstRoom(hash, Swaps(hash, s, e, n), k)
    requires forall m :: 0 <= m < n ==> !RoomAfter(hash, s, e, m)
    ensures var c := Swaps(hash, s, e, n);
            var loc := Locs(hash, |s.table|, c.hand)[k];
            Searched(hash, s, e, limit, Put(c.slots, loc, c.hand, c.epoch), c.slots.table[loc], true)
  {
    hide Locs, Put, Swaps, Found;
    var c := Swaps(hash, s, e, n);
    assert RoomAfter(hash, s, e, n);
    var loc := Locs(hash, |s.table|, c.hand)[k];
    assert EndsAt(hash, s, e, n, k, Put(c.slots, loc, c.hand, c.epoch), c.slots.table[loc]);
  }

  lemma SearchGivesUp<T>(hash: HashFn<T>, s: Slots<T>, e: T, limit: nat)
    requires Sized(s) && !Found(hash, s, e) && forall m :: 0 <= m < limit ==> !RoomAfter(hash, s, e, m)
    ensures var c := Swaps(hash, s, e, limit); Searched(hash, s, e, limit, c.slots, c.hand, false)
  {
    hide Swaps, Found, RoomAfter;
  }

  lemma NoRoomAfter<T>(hash: HashFn<T>, s: Slots<T>, e: T, n: nat, c: Search<T>, locs: seq<nat>)
    requires Sized(s) && c == Swaps(hash, s, e, n) && locs == Locs(hash, |s.table|, c.hand)
    requires forall k :: 0 <= k < 8 ==> !c.slots.collected[locs[k]]
    ensures !RoomAfter(hash, s, e, n)
  {
    hide Swaps, Locs;
  }

  lemma RoomHere<T>(hash: HashFn<T>, c: Search<T>, locs: seq<nat>, loc: nat) returns (k: nat)
    requires Sized(c.slots) && locs == Locs(hash, |c.slots.table|, c.hand) && loc < |c.slots.table| && c.slots.collected[loc]
    requires exists k :: 0 <= k < 8 && locs[k] == loc && forall j :: 0 <= j < k ==> !c.slots.collected[locs[j]]
    ensures k < 8 && locs[k] == loc && FirstRoom(hash, c, k)
  {
    hide Locs;
    k :| 0 <= k < 8 && locs[k] == loc && forall j :: 0 <= j < k ==> !c.slots.collected[locs[j]];
  }

  ghost function Flags(bytes: seq<bv8>, n: nat): (r: seq<bool>)
    requires n <= 8 * |bytes|
    ensures |r| == n && forall i :: 0 <= i < n ==> r[i] == FlagAt(bytes, i)
  {
    seq(n, i requires 0 <= i < n <= 8 * |bytes| => FlagAt(bytes, i))
  }

  class Cache<T(==,!new)> {
    const hash: HashFn<T>
    const blank: T
    const size: nat
    const flags: BitPackedFlags
    var table: seq<T>
    var epoch: seq<bool>
    var counter: nat
    const epochSize: nat
    const depthLimit: nat

    ghost function State(): Slots<T>
      requires flags.Has(size)
      reads this, flags.mem
    {
      Slots(table, Flags(flags.mem[..], size), epoch)
    }

    ghost predicate Shape()
      reads this
    {
      |table| == |epoch| == size && 2 <= size < WORD && flags.Has(size) && epochSize >= 1 && depthLimit >= 1
    }

    /** In every reachable state live entries are at their places, elements are not duplicated, and the current epoch
        is bounded. */
    ghost predicate Valid()
      reads this, flags.mem
    {
      && Shape()
      && Placed(hash, State(), blank) && Distinct(State(), blank)
      && Recent(State()) + counter <= Bound(epochSize)
    }

    /** An empty cache: at least two entries, all discardable, an epoch of 45% of the size (as 32-bit arithmetic has it). */
    constructor Setup(hash: HashFn<T>, blank: T, newSize: Word, depthLimit: nat)
      requires 1 <= depthLimit
      ensures Valid() && fresh(flags) && fresh(flags.mem)
      ensures size == Max(2, newSize) && epochSize == Max(1, (45 * size) % WORD / 100)
      ensures forall x :: !Live(State(), x)
    {
      this.hash, this.blank, this.depthLimit := hash, blank, depthLimit;
      size := Max(2, newSize);
      flags := new BitPackedFlags(Max(2, newSize));
      table := seq(Max(2, newSize), _ => blank);
      epoch := seq(Max(2, newSize), _ => false);
      epochSize := Max(1, (45 * Max(2, newSize)) % WORD / 100);
      counter := Max(1, (45 * Max(2, newSize)) % WORD / 100);
      new;
      hide Placed, Distinct, Live, Recent, FlagAt;
      forall i | 0 <= i < size ensures State().collected[i] {
        assert flags.IsSet(i);
      }
      FreshSlots(hash, State(), blank);
    }

    /** Marks an entry as discardable. */
    method AllowErase(n: nat)
      requires Shape() && n < size
      modifies flags.mem
      ensures State() == old(State()).(collected := old(State()).collected[n := true])
    {
      hide FlagAt;
      ghost var c := State().collected;
      flags.MarkSet(n);
      forall i | 0 <= i < size ensures State().collected[i] == c[n := true][i] {
        assert flags.IsSet(i) <==> i == n || old(flags.IsSet(i));
      }
      assert State().collected == c[n := true];
    }

    /** Marks an entry as one to keep. */
    method PleaseKeep(n: nat)
      requires Shape() && n < size
      modifies flags.mem
      ensures State() == old(State()).(collected := old(State()).collected[n := false])
    {
      hide FlagAt;
      ghost var c := State().collected;
      flags.MarkUnset(n);
      forall i | 0 <= i < size ensures State().collected[i] == c[n := false][i] {
        assert flags.IsSet(i) <==> i != n && old(flags.IsSet(i));
      }
      assert State().collected == c[n := false];
    }

    method ComputeHashes(e: T) returns (locs: seq<nat>)
      requires size > 0
      ensures locs == Locs(hash, size, e)
    {
      locs := Locs(hash, size, e);
    }

    /** The number of live entries of the current epoch. */
    method CountRecent() returns (n: nat)
      requires Shape()
      ensures n == Recent(State())
    {
      hide FlagAt;
      n := 0;
      var i := 0;
      ghost var c := Current(State());
      assert c[..0] == [];
      while i < size
        invariant 0 <= i <= size && n == Count(c[..i])
      {
        var set_ := flags.Marked(i);
        if epoch[i] && !set_ {
          n := n + 1;
        }
        assert c[..i + 1][..i] == c[..i];
        i := i + 1;
      }
      assert c[..size] == c;
    }

    method AgeAll()
      requires Shape()
      modifies this`epoch, flags.mem
      ensures Shape() && State() == Aged(old(State()))
    {
      hide FlagAt;
      ghost var s := State();
      var i := 0;
      while i < size
        invariant 0 <= i <= size && Shape() && table == s.table
        invariant forall j :: 0 <= j < i ==> !State().epoch[j] && State().collected[j] == (s.collected[j] || !s.epoch[j])
        invariant forall j :: i <= j < size ==> State().epoch[j] == s.epoch[j] && State().collected[j] == s.collected[j]
      {
        if epoch[i] {
          epoch := epoch[i := false];
        } else {
          AllowErase(i);
        }
        i := i + 1;
      }
      assert epoch == Aged(s).epoch;
      assert State().collected == Aged(s).collected;
    }

    /** Counts down; at zero starts a new epoch if the current one is full, and sets the next time to look. */
    method EpochCheck()
      requires Valid()
      modifies this`epoch, this`counter, flags.mem
      ensures Shape() && State() == Checked(old(State()), old(counter), epochSize)
      ensures Placed(hash, State(), blank) && Distinct(State(), blank)
      ensures Recent(State()) + 1 + counter <= Bound(epochSize)
      ensures counter == NextCheck(old(counter), old(Recent(State())), epochSize)
    {
      hide FlagAt, Placed, Distinct, Recent;
      if counter != 0 {
        counter := counter - 1;
        return;
      }
      ghost var s := State();
      var unused := CountRecent();
      if unused >= epochSize {
        AgedKeeps(hash, s, blank);
        AgeAll();
        counter := epochSize;
      } else {
        counter := Max(1, Max(epochSize / 16, epochSize - unused));
      }
    }

    /** The place, if any, at which `e` already is. */
    method FindElement(locs: seq<nat>, e: T) returns (found: bool, loc: nat)
      requires Shape() && locs == Locs(hash, size, e)
      ensures found ==> loc in locs && loc < size && table[loc] == e
      ensures !found ==> forall k :: 0 <= k < 8 ==> table[locs[k]] != e
    {
      hide Locs;
      loc := 0;
      for k := 0 to 8
        invariant forall j :: 0 <= j < k ==> table[locs[j]] != e
      {
        loc := locs[k];
        if table[loc] == e {
          return true, loc;
        }
      }
      found := false;
    }

    /** The first discardable place. */
    method FindCollected(locs: seq<nat>, ghost e: T) returns (found: bool, loc: nat)
      requires Shape() && locs == Locs(hash, size, e)
      ensures found ==> loc in locs && loc < size && State().collected[loc]
      ensures found ==> exists k :: 0 <= k < 8 && locs[k] == loc && forall j :: 0 <= j < k ==> !State().collected[locs[j]]
      ensures !found ==> forall k :: 0 <= k < 8 ==> !State().collected[locs[k]]
    {
      hide Locs, FlagAt;
      loc := 0;
      for k := 0 to 8
        invariant forall j :: 0 <= j < k ==> !State().collected[locs[j]]
      {
        loc := locs[k];
        var set_ := flags.Marked(loc);
        if set_ {
          return true, loc;
        }
      }
      found := false;
    }

    /** Stores `e` in an entry and keeps it. */
    method Fill(loc: nat, e: T, recent: bool)
      requires Shape() && loc < size
      modifies this`table, this`epoch, flags.mem
      ensures Shape() && State() == Put(old(State()), loc, e, recent)
    {
      hide FlagAt;
      table := table[loc := e];
      PleaseKeep(loc);
      epoch := epoch[loc := recent];
    }

    /** Inserts. At most one element that could be found before cannot be found any more; nothing live is lost unless the search
        for a discardable entry gives up. */
    method Insert(e: T) returns (ghost lost: T, ghost complete: bool)
      requires Valid()
      modifies this`table, this`epoch, this`counter, flags.mem
      ensures Valid()
      ensures Inserted(hash, Checked(old(State()), old(counter), epochSize), e, State(), lost, complete)
      ensures var s := Checked(old(State()), old(counter), epochSize);
              Sized(s) && Searched(hash, s, e, depthLimit, State(), lost, complete)
      ensures forall x :: (x == e || old(Found(hash, State(), x))) && x != lost ==> Found(hash, State(), x)
      ensures counter == NextCheck(old(counter), old(Recent(State())), epochSize)
    {
      hide FlagAt, Placed, Distinct, Recent, Locs, Live, Found, Inserted, Checked, Searched;
      ghost var before := State();
      ghost var was := counter;
      EpochCheck();
      lost, complete := Place(e);
      forall x | (x == e || Found(hash, before, x)) && x != lost ensures Found(hash, State(), x) {
        CheckedFound(hash, before, was, epochSize, x);
        InsertedFound(hash, Checked(before, was, epochSize), e, State(), lost, complete, x);
      }
    }

    /** Exchanges the element in hand for the one at `loc`. */
    method Exchange(loc: nat, hand: T, recent: bool) returns (evicted: T, wasRecent: bool)
      requires Shape() && loc < size && !State().collected[loc]
      modifies this`table, this`epoch
      ensures Shape() && State() == Put(old(State()), loc, hand, recent)
      ensures evicted == old(State()).table[loc] && wasRecent == old(State()).epoch[loc]
    {
      hide FlagAt, Put;
      SwapIsPut(State(), loc, hand, recent);
      evicted, wasRecent := table[loc], epoch[loc];
      table := table[loc := hand];
      epoch := epoch[loc := recent];
    }

    /** The insert after the epoch check: refreshes an element that is there, or looks for a place. */
    method Place(e: T) returns (ghost lost: T, ghost complete: bool)
      requires Shape() && Placed(hash, State(), blank) && Distinct(State(), blank)
      requires Recent(State()) + 1 + counter <= Bound(epochSize)
      modifies this`table, this`epoch, flags.mem
      ensures Valid()
      ensures Inserted(hash, old(State()), e, State(), lost, complete)
      ensures Sized(old(State())) && Searched(hash, old(State()), e, depthLimit, State(), lost, complete)
    {
      hide FlagAt, Placed, Distinct, Recent, Locs, Live, Found, Kept, Inserted, Put, Absent, Current, Searched;
      ghost var s0 := State();
      KeptStart(hash, s0, e);
      var locs := ComputeHashes(e);
      var found, loc := FindElement(locs, e);
      if found {
        KeptPut(hash, s0, e, s0, e, loc, true);
        PutKeeps(hash, s0, loc, e, true, blank);
        RecentPut(s0, loc, e, true);
        SearchFound(hash, s0, e, depthLimit, loc);
        Fill(loc, e, true);
        return e, true;
      }
      NotFoundAbsent(hash, s0, e, blank);
      NotAtHome(hash, s0, e);
      lost, complete := Chase(e, locs);
    }

    /** What the chain of swaps keeps, from slots `s0` on, with an element in hand. */
    ghost predicate Chasing(s0: Slots<T>, e: T, hand: T, lastEpoch: bool)
      requires Shape() && Sized(s0)
      reads this, flags, flags.mem
    {
      && Placed(hash, State(), blank) && Distinct(State(), blank)
      && Kept(hash, s0, e, State(), hand, lastEpoch) && Absent(State(), hand, blank)
      && Recent(State()) + (if lastEpoch then 1 else 0) <= Recent(s0) + 1
    }

    /** Swaps elements along until one finds a discardable place. */
    method Chase(e: T, locs0: seq<nat>) returns (ghost lost: T, ghost complete: bool)
      requires Shape() && Placed(hash, State(), blank) && Distinct(State(), blank) && Absent(State(), e, blank)
      requires locs0 == Locs(hash, size, e) && Sized(State()) && !Found(hash, State(), e)
      requires Recent(State()) + 1 + counter <= Bound(epochSize)
      modifies this`table, this`epoch, flags.mem
      ensures Valid()
      ensures Inserted(hash, old(State()), e, State(), lost, complete)
      ensures Searched(hash, old(State()), e, depthLimit, State(), lost, complete)
    {
      hide FlagAt, Placed, Distinct, Recent, Locs, Live, Found, Kept, Inserted, Put, Absent, Current;
      hide Searched, RoomAfter, FirstRoom;
      hide Swaps;
      ghost var s0 := State();
      KeptStart(hash, s0, e);
      SwapsStart(hash, s0, e);
      var locs, hand := locs0, e;
      var lastLoc: int := -1;
      var lastEpoch := true;
      for depth := 0 to depthLimit
        invariant Shape() && Chasing(s0, e, hand, lastEpoch)
        invariant locs == Locs(hash, size, hand)
        invariant Search(State(), hand, lastLoc, lastEpoch) == Swaps(hash, s0, e, depth)
        invariant forall m :: 0 <= m < depth ==> !RoomAfter(hash, s0, e, m)
      {
        ghost var s := State();
        var found, loc := FindCollected(locs, hand);
        if found {
          KeptPut(hash, s0, e, s, hand, loc, lastEpoch);
          PutKeeps(hash, s, loc, hand, lastEpoch, blank);
          RecentPut(s, loc, hand, lastEpoch);
          ghost var k := RoomHere(hash, Search(s, hand, lastLoc, lastEpoch), locs, loc);
          SearchEnds(hash, s0, e, depthLimit, depth, k);
          Fill(loc, hand, lastEpoch);
          return s.table[loc], true;
        }
        NoRoomAfter(hash, s0, e, depth, Search(s, hand, lastLoc, lastEpoch), locs);
        loc := NextLoc(locs, lastLoc);
        SwapKeeps(hash, s0, e, s, hand, loc, lastEpoch, blank);
        SwapsStep(hash, s0, e, depth, Search(s, hand, lastLoc, lastEpoch), loc);
        lastLoc := loc;
        hand, lastEpoch := Exchange(loc, hand, lastEpoch);
        locs := ComputeHashes(hand);
      }
      GaveUp(hash, s0, e, State(), hand, lastEpoch);
      SearchGivesUp(hash, s0, e, depthLimit);
      return hand, false;
    }

    /** Whether `e` is found; if asked, makes its entry discardable. The table does not change, so `e` stays found. */
    method Contains(e: T, erase: bool) returns (r: bool)
      requires Valid()
      modifies flags.mem
      ensures Valid() && r == old(Found(hash, State(), e))
      ensures forall x :: Found(hash, State(), x) <==> old(Found(hash, State(), x))
      ensures !erase || !r ==> State() == old(State())
      ensures erase ==> forall x :: x != e && old(Live(State(), x)) ==> Live(State(), x)
      ensures erase && r && e != blank ==> !Live(State(), e)
    {
      hide FlagAt, Placed, Distinct, Recent, Locs, Live, Found;
      ghost var s := State();
      var locs := ComputeHashes(e);
      var found, loc := FindElement(locs, e);
      FoundOrNot(hash, s, e, found, loc);
      if found && erase {
        AllowErase(loc);
        EraseKeeps(hash, s, loc, blank);
      }
      return found;
    }
  }

  /** One exchange of the chain. */
  lemma SwapKeeps<T(!new)>(hash: HashFn<T>, s0: Slots<T>, e0: T, s: Slots<T>, e: T, loc: nat, epoch: bool, blank: T)
    requires loc < |s.table| == |s.collected| == |s.epoch| && loc in Locs(hash, |s.table|, e) && !s.collected[loc]
    requires Placed(hash, s, blank) && Distinct(s, blank) && Kept(hash, s0, e0, s, e, epoch) && Absent(s, e, blank)
    ensures var t := Put(s, loc, e, epoch);
            && Placed(hash, t, blank) && Distinct(t, blank)
            && Kept(hash, s0, e0, t, s.table[loc], s.epoch[loc]) && Absent(t, s.table[loc], blank)
            && Recent(t) + (if s.epoch[loc] then 1 else 0) == Recent(s) + if epoch then 1 else 0
  {
    hide Placed, Distinct, Kept, Absent, Recent, Put, Locs;
    KeptSwap(hash, s0, e0, s, e, loc, epoch);
    PutKeeps(hash, s, loc, e, epoch, blank);
    RecentPut(s, loc, e, epoch);
    SwapCounts(s, loc);
  }

  lemma SwapCounts<T>(s: Slots<T>, loc: nat)
    requires loc < |s.table| == |s.collected| == |s.epoch| && !s.collected[loc]
    ensures Current(s)[loc] == s.epoch[loc]
  {
  }

  lemma SwapIsPut<T>(s: Slots<T>, loc: nat, e: T, epoch: bool)
    requires loc < |s.table| == |s.collected| == |s.epoch| && !s.collected[loc]
    ensures Put(s, loc, e, epoch) == Slots(s.table[loc := e], s.collected, s.epoch[loc := epoch])
  {
    assert s.collected[loc := false] == s.collected;
  }

  lemma InsertedFound<T(!new)>(hash: HashFn<T>, s0: Slots<T>, e0: T, s: Slots<T>, lost: T, complete: bool, x: T)
    requires Inserted(hash, s0, e0, s, lost, complete) && (x == e0 || Found(hash, s0, x)) && x != lost
    ensures Found(hash, s, x)
  {
  }

  lemma GaveUp<T(!new)>(hash: HashFn<T>, s0: Slots<T>, e0: T, s: Slots<T>, hand: T, epoch: bool)
    requires Kept(hash, s0, e0, s, hand, epoch)
    ensures Inserted(hash, s0, e0, s, hand, false)
  {
    hide Found, LiveAs;
  }

  lemma FoundOrNot<T(!new)>(hash: HashFn<T>, s: Slots<T>, e: T, found: bool, loc: nat)
    requires found ==> loc in Locs(hash, |s.table|, e) && loc < |s.table| && s.table[loc] == e
    requires !found ==> forall k :: 0 <= k < 8 && Locs(hash, |s.table|, e)[k] < |s.table| ==>
                                      s.table[Locs(hash, |s.table|, e)[k]] != e
    ensures found <==> Found(hash, s, e)
  {
    hide Locs;
    if found {
      var k :| 0 <= k < 8 && Locs(hash, |s.table|, e)[k] == loc;
      assert Sits(hash, s, e, k);
    }
  }

  /** Making an entry discardable loses at most that entry, and nothing is harder to find. */
  lemma EraseKeeps<T(!new)>(hash: HashFn<T>, s: Slots<T>, loc: nat, blank: T)
    requires loc < |s.table| == |s.collected| == |s.epoch| && Placed(hash, s, blank) && Distinct(s, blank)
    ensures var t := s.(collected := s.collected[loc := true]);
            && Placed(hash, t, blank) && Distinct(t, blank) && Recent(t) <= Recent(s)
            && (forall x :: Found(hash, t, x) <==> Found(hash, s, x))
            && (forall x :: x != s.table[loc] && Live(s, x) ==> Live(t, x))
            && (s.table[loc] != blank ==> !Live(t, s.table[loc]))
  {
    hide Locs;
    var t := s.(collected := s.collected[loc := true]);
    CountFewer(Current(t), Current(s));
    forall x ensures Found(hash, t, x) <==> Found(hash, s, x) {
      assert forall k :: 0 <= k < 8 ==> (Sits(hash, s, x, k) <==> Sits(hash, t, x, k));
    }
    forall x | x != s.table[loc] && Live(s, x) ensures Live(t, x) {
      var i :| 0 <= i < |s.table| && s.table[i] == x && !s.collected[i];
      assert t.table[i] == x && !t.collected[i];
    }
  }

  /** Whatever is live is found. */
  lemma LiveIsFound<T(!new)>(hash: HashFn<T>, s: Slots<T>, blank: T, x: T)
    requires Placed(hash, s, blank) && Live(s, x)
    ensures Found(hash, s, x)
  {
    hide Locs;
    var i :| 0 <= i < |s.table| && s.table[i] == x && !s.collected[i];
    var k :| 0 <= k < 8 && Locs(hash, |s.table|, x)[k] == i;
    assert Sits(hash, s, x, k);
  }

  datatype Op<T> = InsertOp(e: T) | ContainsOp(e: T, erase: bool)

  /** Any run from an empty cache: live elements are found, and the current epoch never has more than its bound. */
  method Run<T(==,!new)>(hash: HashFn<T>, blank: T, newSize: Word, depthLimit: nat, ops: seq<Op<T>>) returns (cache: Cache<T>)
    requires 1 <= depthLimit
    ensures cache.Valid() && Recent(cache.State()) <= Bound(cache.epochSize)
    ensures forall x :: Live(cache.State(), x) ==> Found(cache.hash, cache.State(), x)
  {
    hide Placed, Distinct, Recent, Live, Found, Inserted, Locs, FlagAt;
    cache := new Cache.Setup(hash, blank, newSize, depthLimit);
    for i := 0 to |ops|
      invariant cache.Valid() && fresh(cache) && fresh(cache.flags.mem)
    {
      match ops[i]
      case InsertOp(e) =>
        var _, _ := cache.Insert(e);
      case ContainsOp(e, erase) =>
        var _ := cache.Contains(e, erase);
    }
    forall x | Live(cache.State(), x) ensures Found(cache.hash, cache.State(), x) {
      LiveIsFound(cache.hash, cache.State(), cache.blank, x);
    }
  }

  /** Erasing is lazy: an element just found and erased is still found. */
  method InsertEraseContains<T(==,!new)>(cache: Cache<T>, x: T) returns (r: bool)
    requires cache.Valid()
    modifies cache, cache.flags.mem
    ensures r && cache.Valid()
  {
    var _, _ := cache.Insert(x);
    var found := cache.Contains(x, true);
    if found {
      r := cache.Contains(x, false);
    } else {
      r := true;
    }
  }
}

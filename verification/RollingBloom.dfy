/**
  The rolling Bloom filter: positions are labelled with one of three generations, two bits each, held in pairs of 64-bit words.
  Hashes are an arbitrary function of the hash number, the tweak and the key; table sizes are parameters. A 64-bit word is the
  sequence of its bits, and the word operations act on all of them at once.
 */
module RollingBloom {

  import opened Numbers

  const WORD: nat := 0x1_0000_0000

  // ----- words -----

  type Bits = s: seq<bool> | |s| == 64 witness seq(64, _ => false)

  function And(a: Bits, b: Bits): (r: Bits)
    ensures forall k :: 0 <= k < 64 ==> r[k] == (a[k] && b[k])
  {
    seq(64, k requires 0 <= k < 64 => a[k] && b[k])
  }

  function Or(a: Bits, b: Bits): (r: Bits)
    ensures forall k :: 0 <= k < 64 ==> r[k] == (a[k] || b[k])
  {
    seq(64, k requires 0 <= k < 64 => a[k] || b[k])
  }

  function Xor(a: Bits, b: Bits): (r: Bits)
    ensures forall k :: 0 <= k < 64 ==> r[k] == (a[k] != b[k])
  {
    seq(64, k requires 0 <= k < 64 => a[k] != b[k])
  }

  function Not(a: Bits): (r: Bits)
    ensures forall k :: 0 <= k < 64 ==> r[k] == !a[k]
  {
    seq(64, k requires 0 <= k < 64 => !a[k])
  }

  /** The negation of a word of value 0 or 1: all bits alike. */
  function Spread(g: bool): (r: Bits)
    ensures forall k :: 0 <= k < 64 ==> r[k] == g
  {
    seq(64, _ => g)
  }

  /** A word of value 0 or 1, shifted left. */
  function Shifted(g: bool, bit: nat): (r: Bits)
    ensures forall k :: 0 <= k < 64 ==> r[k] == (g && k == bit)
  {
    seq(64, k => g && k == bit)
  }

  // ----- labels -----

  /** The label of a bit of a pair of words: 0 for unset, else the generation. */
  function LabelOf(p1: Bits, p2: Bits, k: nat): (r: nat)
    requires k < 64
    ensures r <= 3
  {
    (if p1[k] then 1 else 0) + if p2[k] then 2 else 0
  }

  function Low(g: nat): bool {
    g % 2 == 1
  }

  function High(g: nat): bool {
    g / 2 == 1
  }

  function SetTo(p: Bits, bit: nat, g: bool): Bits {
    Or(And(p, Not(Shifted(true, bit))), Shifted(g, bit))
  }

  lemma LabelSet(p1: Bits, p2: Bits, j: nat, k: nat, g: nat)
    requires 1 <= g <= 3 && j < 64 && k < 64
    ensures LabelOf(SetTo(p1, j, Low(g)), SetTo(p2, j, High(g)), k) == if j == k then g else LabelOf(p1, p2, k)
  {
    hide And, Or, Not, Shifted;
  }

  /** Set where the label in two words differs from `g`. */
  function OtherLabels(p1: Bits, p2: Bits, g: nat): Bits {
    Or(Xor(p1, Spread(Low(g))), Xor(p2, Spread(High(g))))
  }

  /** Wiping a generation clears exactly its labels, sixty-four positions at a time. */
  lemma LabelWiped(p1: Bits, p2: Bits, g: nat, k: nat)
    requires 1 <= g <= 3 && k < 64
    ensures var mask := OtherLabels(p1, p2, g);
            LabelOf(And(p1, mask), And(p2, mask), k) == if LabelOf(p1, p2, k) == g then 0 else LabelOf(p1, p2, k)
  {
    hide And, Or, Xor, Spread;
  }

  /** A position: a pair of words and a bit. */
  datatype Position = Position(pair: nat, bit: nat)

  ghost predicate Inside(x: Position, size: nat) {
    2 * x.pair + 1 < size && x.bit < 64
  }

  function Label(data: seq<Bits>, x: Position): nat
    requires Inside(x, |data|)
  {
    LabelOf(data[2 * x.pair], data[2 * x.pair + 1], x.bit)
  }

  // ----- where keys go -----

  type Key = nat

  type Word = x: int | 0 <= x < WORD

  type HashFn = (nat, nat, Key) -> Word

  /** Multiplication in place of a modulus. */
  function FastMod(x: Word, n: nat): (r: nat)
    ensures n > 0 ==> r < n
  {
    assert n > 0 ==> (x * n) / WORD < n by {
      if n > 0 {
        MulLess(n, x, WORD);
        QuotientBelow(x * n, n, WORD);
      }
    }
    (x * n) / WORD
  }

  /** What stays fixed between resets: the hash, the number of hash functions, the table size, keys per generation, the tweak. */
  datatype Params = Params(hash: HashFn, numHashes: nat, size: nat, perGeneration: nat, tweak: nat)

  ghost predicate ParamsOk(p: Params) {
    p.size > 0 && p.size % 2 == 0 && p.perGeneration > 0
  }

  /** Position `n` of a key; the lowest bit of the word number is ignored. */
  function PositionOf(p: Params, n: nat, key: Key): (r: Position)
    ensures p.size > 0 && p.size % 2 == 0 ==> Inside(r, p.size)
  {
    var h := p.hash(n, p.tweak, key);
    Position(FastMod(h, p.size) / 2, h % 64)
  }

  ghost predicate Touches(p: Params, key: Key, x: Position) {
    exists n :: 0 <= n < p.numHashes && PositionOf(p, n, key) == x
  }

  // ----- history -----

  /** The keys inserted since the reset, oldest first; the generation of the key number `t`, counted without wrapping. */
  function EpochOf(p: Params, t: nat): nat
    requires p.perGeneration > 0
  {
    t / p.perGeneration
  }

  /** The label generations take in turn. */
  function LabelFor(epoch: nat): (r: nat)
    ensures 1 <= r <= 3
  {
    epoch % 3 + 1
  }

  /** The last key that touched a position, or -1. */
  ghost function LastTouch(p: Params, history: seq<Key>, x: Position): (r: int)
    ensures -1 <= r < |history|
    ensures r >= 0 ==> Touches(p, history[r], x)
    ensures forall t :: r < t < |history| ==> !Touches(p, history[t], x)
  {
    if history == [] then -1
    else if Touches(p, history[|history| - 1], x) then |history| - 1
    else LastTouch(p, history[..|history| - 1], x)
  }

  /** The label a position should have while the generation `epoch` is being filled: that of the last key that touched it, if
      that is of this generation or one of the two before. */
  ghost function RightLabel(p: Params, last: int, epoch: nat): nat
    requires p.perGeneration > 0
  {
    if last < 0 || EpochOf(p, last) + 2 < epoch then 0 else LabelFor(EpochOf(p, last))
  }

  ghost predicate LabelsRight(p: Params, data: seq<Bits>, history: seq<Key>, epoch: nat)
    requires ParamsOk(p)
  {
    && |data| == p.size
    && forall x :: Inside(x, p.size) ==> Label(data, x) == RightLabel(p, LastTouch(p, history, x), epoch)
  }

  // ----- one step of the table -----

  /** Every position's label after the word pairs below `n` have been wiped of `g`. */
  ghost predicate WipedUpTo(before: seq<Bits>, after: seq<Bits>, g: nat, n: nat) {
    && |after| == |before|
    && forall x :: Inside(x, |before|) ==>
         Label(after, x) == if 2 * x.pair < n && Label(before, x) == g then 0 else Label(before, x)
  }

  lemma WipeStep(before: seq<Bits>, after: seq<Bits>, g: nat, n: nat)
    requires 1 <= g <= 3 && n + 1 < |after| && n % 2 == 0 && WipedUpTo(before, after, g, n)
    ensures var mask := OtherLabels(after[n], after[n + 1], g);
            WipedUpTo(before, after[n := And(after[n], mask)][n + 1 := And(after[n + 1], mask)], g, n + 2)
  {
    hide And, OtherLabels, LabelOf;
    var mask := OtherLabels(after[n], after[n + 1], g);
    var done := after[n := And(after[n], mask)][n + 1 := And(after[n + 1], mask)];
    forall x | Inside(x, |before|)
      ensures Label(done, x) == if 2 * x.pair < n + 2 && Label(before, x) == g then 0 else Label(before, x)
    {
      if 2 * x.pair == n {
        LabelWiped(after[n], after[n + 1], g, x.bit);
      } else {
        assert done[2 * x.pair] == after[2 * x.pair] && done[2 * x.pair + 1] == after[2 * x.pair + 1];
      }
    }
  }

  /** Starting a generation: wiping its label leaves exactly the labels of the two generations before. */
  lemma NewGeneration(p: Params, before: seq<Bits>, after: seq<Bits>, history: seq<Key>, epoch: nat)
    requires ParamsOk(p) && LabelsRight(p, before, history, epoch) && |history| <= (epoch + 1) * p.perGeneration
    requires WipedUpTo(before, after, LabelFor(epoch + 1), p.size)
    ensures LabelsRight(p, after, history, epoch + 1)
  {
    hide Label, LastTouch, EpochOf;
    forall x | Inside(x, p.size) ensures Label(after, x) == RightLabel(p, LastTouch(p, history, x), epoch + 1) {
      var last := LastTouch(p, history, x);
      assert Label(before, x) == RightLabel(p, last, epoch);
      if last >= 0 {
        EpochAtMost(p, last, epoch);
        LabelsDiffer(EpochOf(p, last), epoch);
      }
    }
  }

  lemma EpochAtMost(p: Params, t: nat, epoch: nat)
    requires p.perGeneration > 0 && t < (epoch + 1) * p.perGeneration
    ensures EpochOf(p, t) <= epoch
  {
    QuotientBelow(t, epoch + 1, p.perGeneration);
  }

  lemma EpochIs(p: Params, epoch: nat, entries: nat)
    requires p.perGeneration > 0 && entries < p.perGeneration
    ensures EpochOf(p, epoch * p.perGeneration + entries) == epoch
  {
    DivModUnique(epoch * p.perGeneration + entries, p.perGeneration, epoch, entries);
  }

  lemma LabelsDiffer(e: nat, epoch: nat)
    requires e <= epoch
    ensures e + 2 == epoch ==> LabelFor(e) == LabelFor(epoch + 1)
    ensures e + 2 > epoch ==> LabelFor(e) != LabelFor(epoch + 1)
  {
  }

  /** Every position's label after the first `n` positions of a key have been set to `g`. */
  ghost predicate SetUpTo(p: Params, before: seq<Bits>, after: seq<Bits>, key: Key, g: nat, n: nat)
    requires ParamsOk(p)
  {
    && |after| == |before| == p.size
    && forall x :: Inside(x, p.size) ==>
         Label(after, x) == if (exists m :: 0 <= m < n && PositionOf(p, m, key) == x) then g else Label(before, x)
  }

  lemma SetStep(p: Params, before: seq<Bits>, after: seq<Bits>, key: Key, g: nat, n: nat)
    requires ParamsOk(p) && 1 <= g <= 3 && SetUpTo(p, before, after, key, g, n)
    ensures var x := PositionOf(p, n, key);
            var (w, v) := (2 * x.pair, 2 * x.pair + 1);
            && v < |after|
            && SetUpTo(p, before, after[w := SetTo(after[w], x.bit, Low(g))][v := SetTo(after[v], x.bit, High(g))], key, g, n + 1)
  {
    hide SetTo, LabelOf, PositionOf;
    var y := PositionOf(p, n, key);
    var (w, v) := (2 * y.pair, 2 * y.pair + 1);
    var done := after[w := SetTo(after[w], y.bit, Low(g))][v := SetTo(after[v], y.bit, High(g))];
    forall x | Inside(x, p.size)
      ensures Label(done, x) == if (exists m :: 0 <= m < n + 1 && PositionOf(p, m, key) == x) then g else Label(before, x)
    {
      if x.pair == y.pair {
        LabelSet(after[w], after[v], y.bit, x.bit, g);
      } else {
        assert done[2 * x.pair] == after[2 * x.pair] && done[2 * x.pair + 1] == after[2 * x.pair + 1];
      }
    }
  }

  lemma KeyAdded(p: Params, before: seq<Bits>, after: seq<Bits>, history: seq<Key>, key: Key, epoch: nat)
    requires ParamsOk(p) && LabelsRight(p, before, history, epoch) && EpochOf(p, |history|) == epoch
    requires SetUpTo(p, before, after, key, LabelFor(epoch), p.numHashes)
    ensures LabelsRight(p, after, history + [key], epoch)
  {
    hide Label, PositionOf, EpochOf;
    var longer := history + [key];
    assert longer[..|history|] == history;
    forall x | Inside(x, p.size) ensures Label(after, x) == RightLabel(p, LastTouch(p, longer, x), epoch) {
      assert LastTouch(p, longer, x) == if Touches(p, key, x) then |history| else LastTouch(p, history, x);
    }
  }

  // ----- what the filter contains -----

  /** A key of the current generation or one of the two before touched the position. */
  ghost predicate RecentlyTouched(p: Params, history: seq<Key>, epoch: nat, x: Position)
    requires p.perGeneration > 0
  {
    exists t :: 0 <= t < |history| && EpochOf(p, t) + 2 >= epoch && Touches(p, history[t], x)
  }

  lemma LabelledIsRecent(p: Params, history: seq<Key>, epoch: nat, x: Position)
    requires p.perGeneration > 0
    ensures RightLabel(p, LastTouch(p, history, x), epoch) != 0 <==> RecentlyTouched(p, history, epoch, x)
  {
    hide EpochOf, LastTouch, Touches;
    var last := LastTouch(p, history, x);
    if RecentlyTouched(p, history, epoch, x) {
      var t :| 0 <= t < |history| && EpochOf(p, t) + 2 >= epoch && Touches(p, history[t], x);
      EpochMono(p, t, last);
    }
  }

  lemma EpochMono(p: Params, s: nat, t: nat)
    requires p.perGeneration > 0 && s <= t
    ensures EpochOf(p, s) <= EpochOf(p, t)
  {
    DivFacts(s, p.perGeneration);
    DivFacts(t, p.perGeneration);
    var (a, b, d) := (s / p.perGeneration, t / p.perGeneration, p.perGeneration);
    assert d * (b + 1) == d * b + d;
    if a > b {
      MulMono(d, b + 1, a);
    }
  }

  /** The filter holds a key when all its positions were touched lately. */
  ghost predicate Held(p: Params, history: seq<Key>, epoch: nat, key: Key)
    requires p.perGeneration > 0
  {
    forall n :: 0 <= n < p.numHashes ==> RecentlyTouched(p, history, epoch, PositionOf(p, n, key))
  }

  /** Keys of the current generation and the two before are held. */
  lemma RecentIsHeld(p: Params, history: seq<Key>, epoch: nat, t: nat)
    requires p.perGeneration > 0 && t < |history| && EpochOf(p, t) + 2 >= epoch
    ensures Held(p, history, epoch, history[t])
  {
    hide EpochOf, PositionOf;
    forall n | 0 <= n < p.numHashes ensures RecentlyTouched(p, history, epoch, PositionOf(p, n, history[t])) {
      assert Touches(p, history[t], PositionOf(p, n, history[t]));
    }
  }

  /** The last two generations' worth of keys are held. */
  lemma LastKeysHeld(p: Params, history: seq<Key>, epoch: nat, entries: nat, t: nat)
    requires p.perGeneration > 0 && |history| == epoch * p.perGeneration + entries && entries <= p.perGeneration
    requires t < |history| <= t + 2 * p.perGeneration
    ensures Held(p, history, epoch, history[t])
  {
    hide EpochOf, Held;
    var d := p.perGeneration;
    if epoch >= 2 {
      assert epoch * d == (epoch - 2) * d + 2 * d;
      EpochIs(p, epoch - 2, 0);
      EpochMono(p, (epoch - 2) * d, t);
    }
    RecentIsHeld(p, history, epoch, t);
  }

  // ----- the filter -----

  class RollingBloomFilter {
    const hash: HashFn
    const numHashes: nat
    const perGeneration: nat
    const size: nat
    var tweak: nat
    var entries: nat
    var generation: nat
    var data: seq<Bits>
    // The keys inserted since the last reset, and the current generation counted without wrapping.
    ghost var history: seq<Key>
    ghost var epoch: nat

    ghost function P(): Params
      reads this
    {
      Params(hash, numHashes, size, perGeneration, tweak)
    }

    ghost predicate Valid()
      reads this
    {
      && ParamsOk(P()) && entries <= perGeneration && generation == LabelFor(epoch)
      && |history| == epoch * perGeneration + entries
      && LabelsRight(P(), data, history, epoch)
    }

    /** A filter for `nElements` keys over `pairs` pairs of words. */
    constructor (hash: HashFn, numHashes: nat, nElements: nat, pairs: nat, tweak: nat)
      requires nElements > 0 && pairs > 0
      ensures Valid() && history == [] && perGeneration == (nElements + 1) / 2 && this.hash == hash && this.numHashes == numHashes
    {
      this.hash, this.numHashes, this.tweak := hash, numHashes, tweak;
      perGeneration := (nElements + 1) / 2;
      size := 2 * pairs;
      data := seq(2 * pairs, _ => Spread(false));
      entries, generation, history, epoch := 0, 1, [], 0;
      new;
      Cleared(P(), data);
    }

    /** Forgets everything. */
    method Reset(newTweak: nat)
      requires Valid()
      modifies this
      ensures Valid() && history == [] && tweak == newTweak
    {
      tweak, generation, entries := newTweak, 1, 0;
      data := seq(size, _ => Spread(false));
      history, epoch := [], 0;
      Cleared(P(), data);
    }

    /** Wipes the entries of the generation now starting, two words at a time. */
    method WipeGeneration()
      requires |data| % 2 == 0 && 1 <= generation <= 3
      modifies this`data
      ensures WipedUpTo(old(data), data, generation, |old(data)|)
    {
      hide WipedUpTo, OtherLabels, And;
      ghost var before := data;
      WipeNone(data, generation);
      var p := 0;
      while p < |data|
        invariant 0 <= p <= |data| == |before| && p % 2 == 0 && WipedUpTo(before, data, generation, p)
      {
        WipeStep(before, data, generation, p);
        var p1, p2 := data[p], data[p + 1];
        var mask := OtherLabels(p1, p2, generation);
        data := data[p := And(p1, mask)];
        data := data[p + 1 := And(p2, mask)];
        p := p + 2;
      }
    }

    method Insert(key: Key)
      requires Valid()
      modifies this`entries, this`generation, this`data, this`history, this`epoch
      ensures Valid() && history == old(history) + [key]
    {
      hide LabelsRight, WipedUpTo, SetUpTo, SetTo, PositionOf, LabelFor, EpochOf;
      if entries == perGeneration {
        entries := 0;
        generation := generation + 1;
        if generation == 4 {
          generation := 1;
        }
        NextLabel(epoch);
        ghost var before := data;
        DataSize(P(), data, history, epoch);
        WipeGeneration();
        NextEpoch(epoch, perGeneration);
        NewGeneration(P(), before, data, history, epoch);
        epoch := epoch + 1;
      }
      EpochIs(P(), epoch, entries);
      entries := entries + 1;
      ghost var before := data;
      DataSize(P(), data, history, epoch);
      SetNone(P(), data, key, generation);
      var n := 0;
      while n < numHashes
        invariant 0 <= n <= numHashes && |data| == size && SetUpTo(P(), before, data, key, generation, n)
        modifies this`data
      {
        SetStep(P(), before, data, key, generation, n);
        var h := hash(n, tweak, key);
        var bit := h % 64;
        var pos := FastMod(h, size);
        PositionIs(P(), n, key);
        var low, high := 2 * (pos / 2), 2 * (pos / 2) + 1;
        data := data[low := SetTo(data[low], bit, Low(generation))];
        data := data[high := SetTo(data[high], bit, High(generation))];
        n := n + 1;
      }
      KeyAdded(P(), before, data, history, key, epoch);
      history := history + [key];
    }

    /** Whether the filter contains a key: exactly when all its positions were touched in the current generation or the two
        before, so for each of the last keys. */
    method Contains(key: Key) returns (r: bool)
      requires Valid()
      ensures r <==> Held(P(), history, epoch, key)
      ensures (exists t :: 0 <= t < |history| <= t + 2 * perGeneration && history[t] == key) ==> r
    {
      hide Held, PositionOf, LastTouch, RightLabel, RecentlyTouched, LabelOf;
      if exists t :: 0 <= t < |history| <= t + 2 * perGeneration && history[t] == key {
        ghost var t :| 0 <= t < |history| <= t + 2 * perGeneration && history[t] == key;
        LastKeysHeld(P(), history, epoch, entries, t);
      }
      var n := 0;
      while n < numHashes
        invariant 0 <= n <= numHashes
        invariant forall m :: 0 <= m < n ==> RecentlyTouched(P(), history, epoch, PositionOf(P(), m, key))
      {
        ghost var x := PositionOf(P(), n, key);
        LabelledIsRecent(P(), history, epoch, x);
        assert Label(data, x) == RightLabel(P(), LastTouch(P(), history, x), epoch);
        var h := hash(n, tweak, key);
        var bit := h % 64;
        var pos := FastMod(h, size);
        PositionIs(P(), n, key);
        var low, high := 2 * (pos / 2), 2 * (pos / 2) + 1;
        AnyBit(data[low], data[high], bit);
        if !Or(data[low], data[high])[bit] {
          NotHeld(P(), history, epoch, key, n);
          return false;
        }
        n := n + 1;
      }
      AllHeld(P(), history, epoch, key);
      return true;
    }
  }

  lemma Cleared(p: Params, data: seq<Bits>)
    requires ParamsOk(p) && |data| == p.size && forall i :: 0 <= i < |data| ==> data[i] == Spread(false)
    ensures LabelsRight(p, data, [], 0)
  {
  }

  lemma WipeNone(data: seq<Bits>, g: nat)
    ensures WipedUpTo(data, data, g, 0)
  {
  }

  lemma SetNone(p: Params, data: seq<Bits>, key: Key, g: nat)
    requires ParamsOk(p) && |data| == p.size
    ensures SetUpTo(p, data, data, key, g, 0)
  {
  }

  lemma DataSize(p: Params, data: seq<Bits>, history: seq<Key>, epoch: nat)
    requires ParamsOk(p) && LabelsRight(p, data, history, epoch)
    ensures |data| == p.size
  {
  }

  lemma NextLabel(epoch: nat)
    ensures LabelFor(epoch + 1) == if LabelFor(epoch) == 3 then 1 else LabelFor(epoch) + 1
  {
  }

  lemma NextEpoch(epoch: nat, d: nat)
    ensures (epoch + 1) * d == epoch * d + d
  {
  }

  lemma PositionIs(p: Params, n: nat, key: Key)
    ensures PositionOf(p, n, key) == Position(FastMod(p.hash(n, p.tweak, key), p.size) / 2, p.hash(n, p.tweak, key) % 64)
  {
  }

  lemma AnyBit(p1: Bits, p2: Bits, k: nat)
    requires k < 64
    ensures Or(p1, p2)[k] <==> LabelOf(p1, p2, k) != 0
  {
  }

  lemma NotHeld(p: Params, history: seq<Key>, epoch: nat, key: Key, n: nat)
    requires p.perGeneration > 0 && n < p.numHashes && !RecentlyTouched(p, history, epoch, PositionOf(p, n, key))
    ensures !Held(p, history, epoch, key)
  {
  }

  lemma AllHeld(p: Params, history: seq<Key>, epoch: nat, key: Key)
    requires p.perGeneration > 0
    requires forall m :: 0 <= m < p.numHashes ==> RecentlyTouched(p, history, epoch, PositionOf(p, m, key))
    ensures Held(p, history, epoch, key)
  {
  }

  /** Any run of inserts into a fresh filter: each of the last `nElements` keys is contained. */
  method InsertAllThenLookUp(hash: HashFn, numHashes: nat, nElements: nat, pairs: nat, tweak: nat, keys: seq<Key>, key: Key)
    returns (r: bool)
    requires nElements > 0 && pairs > 0
    ensures (exists t :: 0 <= t < |keys| <= t + nElements && keys[t] == key) ==> r
  {
    hide Held;
    var filter := new RollingBloomFilter(hash, numHashes, nElements, pairs, tweak);
    for i := 0 to |keys|
      invariant filter.Valid() && fresh(filter) && filter.history == keys[..i]
    {
      filter.Insert(keys[i]);
    }
    assert filter.history == keys;
    r := filter.Contains(key);
  }
}

/**
  Invertible Bloom lookup tables for set reconciliation. Each key is added into one cell of every partition of the table; a cell
  keeps a count and running exclusive-ors. Decoding peels cells that hold a single key. Hashes are an arbitrary function; that
  the check hash and the emptiness test do not misread a cell of the given difference is a stated hypothesis.
 */
module Iblt {

  import opened Numbers

  type Key = nat

  type Bytes = seq<nat>

  // ----- exclusive or -----

  function Xor(x: nat, y: nat): nat {
    if x == 0 then y else if y == 0 then x else 2 * Xor(x / 2, y / 2) + (x + y) % 2
  }

  lemma XorParts(x: nat, y: nat)
    ensures Xor(x, y) / 2 == Xor(x / 2, y / 2) && Xor(x, y) % 2 == (x + y) % 2
  {
  }

  lemma {:induction false} XorLaws(x: nat, y: nat)
    ensures Xor(x, y) == Xor(y, x) && Xor(x, x) == 0 && Xor(x, 0) == x && Xor(0, x) == x
    decreases x + y
  {
    if x > 0 && y > 0 {
      XorLaws(x / 2, y / 2);
      XorLaws(x / 2, x / 2);
    } else if x > 0 {
      XorLaws(x / 2, 0);
    }
  }

  lemma {:induction false} XorAssoc(x: nat, y: nat, z: nat)
    ensures Xor(Xor(x, y), z) == Xor(x, Xor(y, z))
    decreases x
  {
    hide Xor;
    if x == 0 {
      XorLaws(y, 0);
      XorLaws(Xor(y, z), 0);
    } else {
      XorAssoc(x / 2, y / 2, z / 2);
      XorAssocStep(x, y, z);
    }
  }

  lemma XorAssocStep(x: nat, y: nat, z: nat)
    requires Xor(Xor(x / 2, y / 2), z / 2) == Xor(x / 2, Xor(y / 2, z / 2))
    ensures Xor(Xor(x, y), z) == Xor(x, Xor(y, z))
  {
    hide Xor;
    XorParts(x, y);
    XorParts(y, z);
    XorParts(Xor(x, y), z);
    XorParts(x, Xor(y, z));
    Parity(x, y, z, Xor(x, y), Xor(y, z));
    SameParts(Xor(Xor(x, y), z), Xor(x, Xor(y, z)));
  }

  lemma Parity(x: nat, y: nat, z: nat, xy: nat, yz: nat)
    requires xy % 2 == (x + y) % 2 && yz % 2 == (y + z) % 2
    ensures (xy + z) % 2 == (x + yz) % 2
  {
  }

  lemma SameParts(a: nat, b: nat)
    requires a / 2 == b / 2 && a % 2 == b % 2
    ensures a == b
  {
  }

  function VecXor(a: Bytes, b: Bytes): (r: Bytes)
    requires |a| == |b|
    ensures |r| == |a| && forall i :: 0 <= i < |r| ==> r[i] == Xor(a[i], b[i])
  {
    seq(|a|, i requires 0 <= i < |a| == |b| => Xor(a[i], b[i]))
  }

  function Zeros(n: nat): (r: Bytes)
    ensures |r| == n && forall i :: 0 <= i < n ==> r[i] == 0
  {
    seq(n, _ => 0)
  }

  // ----- what a cell adds up -----

  /** Count, keys, key checks and values of the items in a cell. */
  datatype Total = Total(count: int, key: nat, check: nat, value: Bytes)

  function Plus(a: Total, b: Total): (r: Total)
    requires |a.value| == |b.value|
    ensures |r.value| == |a.value|
  {
    Total(a.count + b.count, Xor(a.key, b.key), Xor(a.check, b.check), VecXor(a.value, b.value))
  }

  lemma PlusLaws(a: Total, b: Total, c: Total)
    requires |a.value| == |b.value| == |c.value|
    ensures Plus(a, b) == Plus(b, a)
    ensures Plus(Plus(a, b), c) == Plus(a, Plus(b, c))
  {
    hide Xor;
    XorLaws(a.key, b.key);
    XorLaws(a.check, b.check);
    XorAssoc(a.key, b.key, c.key);
    XorAssoc(a.check, b.check, c.check);
    forall i | 0 <= i < |a.value| ensures VecXor(a.value, b.value)[i] == VecXor(b.value, a.value)[i] {
      XorLaws(a.value[i], b.value[i]);
    }
    assert VecXor(a.value, b.value) == VecXor(b.value, a.value);
    var l, r := VecXor(VecXor(a.value, b.value), c.value), VecXor(a.value, VecXor(b.value, c.value));
    forall i | 0 <= i < |a.value| ensures l[i] == r[i] {
      XorAssoc(a.value[i], b.value[i], c.value[i]);
    }
    assert l == r;
  }

  /** Exchanging the first two of three. */
  lemma PlusSwap(a: Total, b: Total, c: Total)
    requires |a.value| == |b.value| == |c.value|
    ensures Plus(a, Plus(b, c)) == Plus(b, Plus(a, c))
  {
    hide Plus;
    PlusLaws(a, b, c);
    PlusLaws(b, a, c);
  }

  function Nothing(valueSize: nat): Total {
    Total(0, 0, 0, Zeros(valueSize))
  }

  /** The same item counted the other way. */
  function Opposite(a: Total): (r: Total)
    ensures r.value == a.value
  {
    Total(-a.count, a.key, a.check, a.value)
  }

  lemma PlusNothing(a: Total)
    ensures Plus(a, Nothing(|a.value|)) == a && Plus(Nothing(|a.value|), a) == a
  {
    hide Xor;
    XorLaws(a.key, 0);
    XorLaws(a.check, 0);
    forall i | 0 <= i < |a.value| ensures Xor(a.value[i], 0) == a.value[i] && Xor(0, a.value[i]) == a.value[i] {
      XorLaws(a.value[i], 0);
    }
  }

  lemma PlusOpposite(a: Total)
    ensures Plus(Opposite(a), a) == Nothing(|a.value|) == Plus(a, Opposite(a))
  {
    hide Xor;
    XorLaws(a.key, a.key);
    XorLaws(a.check, a.check);
    forall i | 0 <= i < |a.value| ensures Xor(a.value[i], a.value[i]) == 0 {
      XorLaws(a.value[i], a.value[i]);
    }
  }

  /** Taking away what was added. */
  lemma PlusUndo(a: Total, b: Total)
    requires |a.value| == |b.value|
    ensures Plus(Opposite(a), Plus(a, b)) == b
  {
    hide Plus;
    PlusLaws(Opposite(a), a, b);
    PlusOpposite(a);
    PlusNothing(b);
  }

  // ----- where keys go -----

  const CHECK_SEED: nat := 11

  /** The hash, the number of partitions, the cells of each, and the size of values. */
  datatype Params = Params(hash: (nat, Key) -> nat, numHashes: nat, width: nat, valueSize: nat)

  ghost predicate ParamsOk(p: Params) {
    p.numHashes > 0 && p.width > 0
  }

  /** The size of the table. */
  function Cells(p: Params): nat {
    p.numHashes * p.width
  }

  function CheckOf(p: Params, k: Key): nat {
    p.hash(CHECK_SEED, k)
  }

  /** The cell of a key in partition `i`. */
  function Bucket(p: Params, k: Key, i: nat): nat
    requires p.width > 0
  {
    i * p.width + p.hash(i, k) % p.width
  }

  /** Key `k` goes into cell `b`. */
  ghost predicate InBucket(p: Params, k: Key, b: nat)
    requires p.width > 0
  {
    b == Bucket(p, k, b / p.width)
  }

  /** One item: inserted or erased, with its value. */
  datatype Item = Item(sign: int, value: Bytes)

  type Items = map<Key, Item>

  ghost predicate ItemsOk(p: Params, d: Items) {
    forall k :: k in d ==> (d[k].sign == 1 || d[k].sign == -1) && |d[k].value| == p.valueSize
  }

  function Contribution(p: Params, k: Key, item: Item): (r: Total)
    ensures r.value == item.value
  {
    Total(item.sign, k, CheckOf(p, k), item.value)
  }

  ghost function InCell(p: Params, k: Key, item: Item, b: nat): (r: Total)
    requires p.width > 0 && |item.value| == p.valueSize
    ensures |r.value| == p.valueSize
  {
    if InBucket(p, k, b) then Contribution(p, k, item) else Nothing(p.valueSize)
  }

  /** The sum of the items that go into a cell. */
  ghost function Sum(p: Params, d: Items, b: nat): (r: Total)
    requires p.width > 0 && ItemsOk(p, d)
    ensures |r.value| == p.valueSize
    decreases |d|
  {
    if |d| == 0 then Nothing(p.valueSize)
    else
      var k :| k in d;
      Plus(InCell(p, k, d[k], b), Sum(p, d - {k}, b))
  }

  lemma SumPick(p: Params, d: Items, b: nat) returns (k: Key)
    requires p.width > 0 && ItemsOk(p, d) && |d| > 0
    ensures k in d && Sum(p, d, b) == Plus(InCell(p, k, d[k], b), Sum(p, d - {k}, b))
  {
    hide Plus, InCell;
    k :| k in d && Sum(p, d, b) == Plus(InCell(p, k, d[k], b), Sum(p, d - {k}, b));
  }

  /** Any item can be split off. */
  lemma {:induction false} SumRemove(p: Params, d: Items, b: nat, k: Key)
    requires p.width > 0 && ItemsOk(p, d) && k in d
    ensures Sum(p, d, b) == Plus(InCell(p, k, d[k], b), Sum(p, d - {k}, b))
    decreases |d|
  {
    hide Plus, InCell, Sum;
    var c := SumPick(p, d, b);
    if c != k {
      SumRemove(p, d - {c}, b, k);
      SumRemove(p, d - {k}, b, c);
      assert d - {c} - {k} == d - {k} - {c};
      PlusSwap(InCell(p, c, d[c], b), InCell(p, k, d[k], b), Sum(p, d - {c} - {k}, b));
    }
  }

  lemma SumAdd(p: Params, d: Items, b: nat, k: Key, item: Item)
    requires p.width > 0 && ItemsOk(p, d) && k !in d && |item.value| == p.valueSize && ItemsOk(p, d[k := item])
    ensures Sum(p, d[k := item], b) == Plus(InCell(p, k, item, b), Sum(p, d, b))
  {
    hide Plus, InCell, Sum;
    SumRemove(p, d[k := item], b, k);
    assert d[k := item] - {k} == d;
  }

  /** Some item goes into the cell. */
  ghost predicate Touched(p: Params, d: Items, b: nat)
    requires p.width > 0
  {
    exists k :: k in d && InBucket(p, k, b)
  }

  lemma {:induction false} Untouched(p: Params, d: Items, b: nat)
    requires p.width > 0 && ItemsOk(p, d) && !Touched(p, d, b)
    ensures Sum(p, d, b) == Nothing(p.valueSize)
    decreases |d|
  {
    hide Plus, InBucket, Nothing;
    if |d| > 0 {
      var k := SumPick(p, d, b);
      assert !InBucket(p, k, b);
      assert InCell(p, k, d[k], b) == Nothing(p.valueSize);
      Untouched(p, d - {k}, b);
      NothingTwice(p.valueSize);
    }
  }

  lemma NothingTwice(n: nat)
    ensures Plus(Nothing(n), Nothing(n)) == Nothing(n)
  {
    PlusNothing(Nothing(n));
  }

  // ----- cells -----

  datatype Entry = Entry(count: int, keySum: nat, keyCheck: nat, valueSum: Bytes)

  predicate IsEmpty(e: Entry) {
    e.count == 0 && e.keySum == 0 && e.keyCheck == 0
  }

  predicate IsPure(p: Params, e: Entry) {
    (e.count == 1 || e.count == -1) && e.keyCheck == CheckOf(p, e.keySum)
  }

  /** Value bytes are added into a sum that grows as needed. */
  function Added(sum: Bytes, value: Bytes): (r: Bytes)
    ensures |value| == 0 ==> r == sum
    ensures |r| == if |sum| < |value| then |value| else |sum|
    ensures forall i :: 0 <= i < |value| ==> r[i] == Xor(if i < |sum| then sum[i] else 0, value[i])
    ensures forall i :: |value| <= i < |sum| ==> r[i] == sum[i]
  {
    seq(if |sum| < |value| then |value| else |sum|,
        i requires 0 <= i < (if |sum| < |value| then |value| else |sum|) =>
          if i < |value| then Xor(if i < |sum| then sum[i] else 0, value[i]) else sum[i])
  }

  lemma AddedCases(sum: Bytes, value: Bytes)
    ensures Added([], value) == value
    ensures |sum| == |value| ==> Added(sum, value) == VecXor(sum, value)
    ensures Added(sum, []) == sum
  {
    hide Xor;
    forall i | 0 <= i < |value| ensures Xor(0, value[i]) == value[i] {
      XorLaws(value[i], 0);
    }
    assert Added([], value) == value;
    if |sum| == |value| {
      assert Added(sum, value) == VecXor(sum, value);
    }
  }

  method AddValue(sum: Bytes, value: Bytes) returns (r: Bytes)
    ensures r == Added(sum, value)
  {
    hide Xor;
    if |value| == 0 {
      assert Added(sum, value) == sum;
      return sum;
    }
    r := if |sum| < |value| then sum + Zeros(|value| - |sum|) else sum;
    ghost var start := r;
    var i := 0;
    while i < |value|
      invariant 0 <= i <= |value| && |r| == |start|
      invariant forall j :: 0 <= j < i ==> r[j] == Xor(start[j], value[j])
      invariant forall j :: i <= j < |r| ==> r[j] == start[j]
    {
      r := r[i := Xor(r[i], value[i])];
      i := i + 1;
    }
    assert r == Added(sum, value);
  }

  /** A cell after one more item. */
  function Bumped(e: Entry, t: Total): Entry {
    var c := Entry(e.count + t.count, Xor(e.keySum, t.key), Xor(e.keyCheck, t.check), e.valueSum);
    c.(valueSum := if IsEmpty(c) then [] else Added(e.valueSum, t.value))
  }

  /** A cell stands for a sum; the value is dropped when nothing goes into the cell. */
  ghost predicate CellOk(e: Entry, t: Total, touched: bool) {
    && e.count == t.count && e.keySum == t.key && e.keyCheck == t.check
    && e.valueSum == if touched then t.value else []
  }

  ghost predicate TableOk(p: Params, d: Items, table: seq<Entry>)
    requires ParamsOk(p) && ItemsOk(p, d)
  {
    && |table| == p.numHashes * p.width
    && forall b :: 0 <= b < |table| ==> CellOk(table[b], Sum(p, d, b), Touched(p, d, b))
  }

  /** A cell of these items that looks empty is. */
  ghost predicate EmptyRight(p: Params, d: Items)
    requires ParamsOk(p) && ItemsOk(p, d)
  {
    forall b: nat :: b < Cells(p) && Touched(p, d, b) ==>
      var t := Sum(p, d, b); !(t.count == 0 && t.key == 0 && t.check == 0)
  }

  /** Exactly one item goes into the cell. */
  ghost predicate Alone(p: Params, d: Items, k: Key, b: nat)
    requires p.width > 0
  {
    k in d && InBucket(p, k, b) && forall j :: j in d && j != k ==> !InBucket(p, j, b)
  }

  /** A cell of these items that looks pure holds one. */
  ghost predicate PureRight(p: Params, d: Items)
    requires ParamsOk(p) && ItemsOk(p, d)
  {
    forall b: nat :: b < Cells(p) ==>
      var t := Sum(p, d, b);
      (t.count == 1 || t.count == -1) && t.check == CheckOf(p, t.key) ==> exists k :: Alone(p, d, k, b)
  }

  /** Item `k` is alone in cell `b` of the table. */
  ghost predicate Peelable(p: Params, d: Items, k: Key, b: nat)
    requires ParamsOk(p)
  {
    k in d && b < Cells(p) && Alone(p, d, k, b)
  }

  /** Taking items that are alone in a cell, one after the other, leads from `d` to `s`. */
  ghost predicate PeelsTo(p: Params, d: Items, s: Items)
    requires ParamsOk(p)
    decreases d.Keys
  {
    s == d || exists k, b: nat :: Peelable(p, d, k, b) && PeelsTo(p, d - {k}, s)
  }

  lemma {:induction false} PeelsTrans(p: Params, d: Items, s: Items, t: Items)
    requires ParamsOk(p) && PeelsTo(p, d, s) && PeelsTo(p, s, t)
    ensures PeelsTo(p, d, t)
    decreases d.Keys
  {
    hide Alone;
    if s != d {
      var k, b: nat :| Peelable(p, d, k, b) && PeelsTo(p, d - {k}, s);
      PeelsTrans(p, d - {k}, s, t);
    }
  }

  lemma PeelsOne(p: Params, d: Items, s: Items, k: Key, b: nat)
    requires ParamsOk(p) && PeelsTo(p, d, s) && Peelable(p, s, k, b)
    ensures PeelsTo(p, d, s - {k})
  {
    hide Alone;
    assert PeelsTo(p, s - {k}, s - {k});
    assert PeelsTo(p, s, s - {k});
    PeelsTrans(p, d, s, s - {k});
  }

  lemma PeelsAll(p: Params, d: Items)
    requires ParamsOk(p)
    ensures PeelsTo(p, d, d)
  {
  }

  /** Neither test misreads a cell of the table, for any items that peeling can leave. */
  ghost predicate Faithful(p: Params, d: Items)
    requires ParamsOk(p)
  {
    forall s: Items :: PeelsTo(p, d, s) && ItemsOk(p, s) ==> EmptyRight(p, s) && PureRight(p, s)
  }

  /** No two items share a cell of the table. */
  ghost predicate NoSharing(p: Params, d: Items)
    requires ParamsOk(p)
  {
    forall j, k, b: nat :: j in d && k in d && j != k && b < Cells(p) && InBucket(p, j, b) ==> !InBucket(p, k, b)
  }

  /** Items that share no cell are read right whatever the check hash. */
  lemma {:induction false} UnsharedIsFaithful(p: Params, d: Items)
    requires ParamsOk(p) && ItemsOk(p, d) && NoSharing(p, d)
    ensures Faithful(p, d)
  {
    hide Sum, InBucket, EmptyRight, PureRight, PeelsTo;
    forall s: Items | PeelsTo(p, d, s) && ItemsOk(p, s)
      ensures EmptyRight(p, s) && PureRight(p, s)
    {
      PeelsPart(p, d, s);
      UnsharedRight(p, s);
    }
  }

  lemma UnsharedRight(p: Params, s: Items)
    requires ParamsOk(p) && ItemsOk(p, s) && NoSharing(p, s)
    ensures EmptyRight(p, s) && PureRight(p, s)
  {
    hide Sum, InBucket;
    forall b: nat | b < Cells(p)
      ensures Touched(p, s, b) ==> Sum(p, s, b).count != 0 && exists k :: Alone(p, s, k, b)
      ensures !Touched(p, s, b) ==> Sum(p, s, b).count == 0
    {
      if Touched(p, s, b) {
        var k: Key :| k in s && InBucket(p, k, b);
        assert Alone(p, s, k, b);
        AloneSum(p, s, k, b);
      } else {
        Untouched(p, s, b);
      }
    }
  }

  lemma {:induction false} PeelsPart(p: Params, d: Items, s: Items)
    requires ParamsOk(p) && PeelsTo(p, d, s)
    ensures Part(s, d)
    decreases d.Keys
  {
    hide Alone;
    if s != d {
      var k, b: nat :| Peelable(p, d, k, b) && PeelsTo(p, d - {k}, s);
      PeelsPart(p, d - {k}, s);
    }
  }

  ghost predicate Part(s: Items, d: Items) {
    forall k :: k in s ==> k in d && s[k] == d[k]
  }

  lemma BumpedCell(p: Params, d: Items, d': Items, t: Total, e: Entry, b: nat)
    requires ParamsOk(p) && ItemsOk(p, d) && ItemsOk(p, d') && EmptyRight(p, d') && b < Cells(p)
    requires CellOk(e, Sum(p, d, b), Touched(p, d, b))
    requires |t.value| == p.valueSize && Sum(p, d', b) == Plus(t, Sum(p, d, b))
    ensures CellOk(Bumped(e, t), Sum(p, d', b), Touched(p, d', b))
  {
    hide Xor, Sum, InBucket, VecXor;
    var u := Sum(p, d, b);
    XorLaws(e.keySum, t.key);
    XorLaws(e.keyCheck, t.check);
    AddedCases(e.valueSum, t.value);
    PlusLaws(t, u, u);
    if !Touched(p, d', b) {
      Untouched(p, d', b);
    } else if !Touched(p, d, b) {
      Untouched(p, d, b);
      PlusNothing(t);
    }
  }

  // ----- changes -----

  /** Adds an item into the cells of its key. */
  ghost predicate Updated(p: Params, k: Key, t: Total, before: seq<Entry>, after: seq<Entry>)
    requires p.width > 0
  {
    && |after| == |before|
    && forall b {:trigger after[b]} :: 0 <= b < |after| ==>
         after[b] == if InBucket(p, k, b) then Bumped(before[b], t) else before[b]
  }

  /** The cells of the first `i` partitions have been updated. */
  ghost predicate Partly(p: Params, k: Key, t: Total, before: seq<Entry>, after: seq<Entry>, i: nat)
    requires p.width > 0
  {
    && |after| == |before| == p.numHashes * p.width
    && forall b {:trigger after[b]} :: 0 <= b < |after| ==>
         after[b] == if InBucket(p, k, b) && b < i * p.width then Bumped(before[b], t) else before[b]
  }

  lemma PartlyStart(p: Params, k: Key, t: Total, before: seq<Entry>)
    requires p.width > 0 && |before| == p.numHashes * p.width
    ensures Partly(p, k, t, before, before, 0)
  {
  }

  lemma PartlyStep(p: Params, k: Key, t: Total, before: seq<Entry>, after: seq<Entry>, i: nat)
    requires p.width > 0 && i < p.numHashes && Partly(p, k, t, before, after, i)
    ensures var b := Bucket(p, k, i);
            && b < |after| == |before| && after[b] == before[b]
            && Partly(p, k, t, before, after[b := Bumped(before[b], t)], i + 1)
  {
    hide InBucket, Bumped, Bucket;
    var bucket := Bucket(p, k, i);
    BucketPlace(p, k, i);
    InTable(p, i, bucket);
    var end := (i + 1) * p.width;
    assert i * p.width <= end;
    forall b: nat | b < |after| && b != bucket && InBucket(p, k, b) && b < end ensures b < i * p.width {
      OnlyBucket(p, k, i, b);
    }
  }

  lemma PartlyDone(p: Params, k: Key, t: Total, before: seq<Entry>, after: seq<Entry>)
    requires p.width > 0 && Partly(p, k, t, before, after, p.numHashes)
    ensures Updated(p, k, t, before, after)
  {
    hide InBucket, Bumped;
  }

  /** The items in the cells of other keys do not change. */
  lemma OtherCells(p: Params, d: Items, k: Key, b: nat)
    requires p.width > 0 && ItemsOk(p, d) && k in d && !InBucket(p, k, b)
    ensures Sum(p, d, b) == Sum(p, d - {k}, b) && (Touched(p, d, b) <==> Touched(p, d - {k}, b))
  {
    hide Plus, InBucket, Sum, Nothing;
    SumRemove(p, d, b, k);
    PlusNothing(Sum(p, d - {k}, b));
    if Touched(p, d, b) {
      var j: Key :| j in d && InBucket(p, j, b);
      assert j in d - {k};
    }
  }

  lemma UpdateAdds(p: Params, d: Items, k: Key, item: Item, before: seq<Entry>, after: seq<Entry>)
    requires ParamsOk(p) && ItemsOk(p, d) && k !in d && |item.value| == p.valueSize && ItemsOk(p, d[k := item])
    requires TableOk(p, d, before) && EmptyRight(p, d[k := item])
    requires Updated(p, k, Contribution(p, k, item), before, after)
    ensures TableOk(p, d[k := item], after)
  {
    hide Sum, CellOk, Bumped, InBucket, EmptyRight, Plus, Contribution, Touched;
    var d' := d[k := item];
    assert d' - {k} == d;
    forall b | 0 <= b < |after| ensures CellOk(after[b], Sum(p, d', b), Touched(p, d', b)) {
      if InBucket(p, k, b) {
        SumAdd(p, d, b, k, item);
        BumpedCell(p, d, d', Contribution(p, k, item), before[b], b);
      } else {
        OtherCells(p, d', k, b);
      }
    }
  }

  lemma UpdateRemoves(p: Params, d: Items, k: Key, before: seq<Entry>, after: seq<Entry>)
    requires ParamsOk(p) && ItemsOk(p, d) && k in d
    requires TableOk(p, d, before) && EmptyRight(p, d - {k})
    requires Updated(p, k, Opposite(Contribution(p, k, d[k])), before, after)
    ensures TableOk(p, d - {k}, after)
  {
    hide Sum, CellOk, Bumped, InBucket, EmptyRight, Plus, Contribution, Touched;
    var d' := d - {k};
    var c := Contribution(p, k, d[k]);
    forall b | 0 <= b < |after| ensures CellOk(after[b], Sum(p, d', b), Touched(p, d', b)) {
      if InBucket(p, k, b) {
        SumRemove(p, d, b, k);
        PlusUndo(c, Sum(p, d', b));
        BumpedCell(p, d, d', Opposite(c), before[b], b);
      } else {
        OtherCells(p, d, k, b);
      }
    }
  }

  /** The key is not among the items, or only with the opposite sign and the same value. */
  predicate Cancels(d: Items, k: Key, item: Item) {
    k in d ==> d[k] == Item(-item.sign, item.value)
  }

  /** The items with one more: it is entered, or cancels its opposite. */
  function With(d: Items, k: Key, item: Item): Items {
    if k in d then d - {k} else d[k := item]
  }

  ghost predicate RightWith(p: Params, d: Items, k: Key, item: Item)
    requires ParamsOk(p)
  {
    ItemsOk(p, With(d, k, item)) && EmptyRight(p, With(d, k, item))
  }

  ghost predicate StandsWith(p: Params, d: Items, k: Key, item: Item, table: seq<Entry>)
    requires ParamsOk(p)
  {
    ItemsOk(p, With(d, k, item)) && TableOk(p, With(d, k, item), table)
  }

  /** Adding the contribution of a signed item to its cells makes a table for the items one for the items with that one. */
  lemma UpdateSigned(p: Params, d: Items, k: Key, item: Item, before: seq<Entry>, after: seq<Entry>)
    requires ParamsOk(p) && ItemsOk(p, d) && (item.sign == 1 || item.sign == -1) && |item.value| == p.valueSize
    requires TableOk(p, d, before) && Updated(p, k, Contribution(p, k, item), before, after)
    ensures Cancels(d, k, item) && RightWith(p, d, k, item) ==> StandsWith(p, d, k, item, after)
  {
    hide TableOk, EmptyRight, Updated;
    if Cancels(d, k, item) && RightWith(p, d, k, item) {
      if k in d {
        assert Opposite(Contribution(p, k, d[k])) == Contribution(p, k, item);
        UpdateRemoves(p, d, k, before, after);
      } else {
        UpdateAdds(p, d, k, item, before, after);
      }
    }
  }

  ghost predicate AllInserted(d: Items) {
    forall k :: k in d ==> d[k].sign == 1
  }

  /** With inserted items only, a cell counts them, so the emptiness test is right whatever the hash. */
  lemma {:induction false} InsertedCount(p: Params, d: Items, b: nat)
    requires p.width > 0 && ItemsOk(p, d) && AllInserted(d)
    ensures Sum(p, d, b).count >= 0 && (Touched(p, d, b) ==> Sum(p, d, b).count > 0)
    decreases |d|
  {
    hide Xor, InBucket, VecXor;
    if Touched(p, d, b) {
      var k: Key :| k in d && InBucket(p, k, b);
      SumRemove(p, d, b, k);
      hide Sum;
      InsertedCount(p, d - {k}, b);
    } else {
      hide Sum;
      Untouched(p, d, b);
    }
  }

  lemma InsertedRight(p: Params, d: Items)
    requires ParamsOk(p) && ItemsOk(p, d) && AllInserted(d)
    ensures EmptyRight(p, d)
  {
    hide Sum;
    forall b: nat | Touched(p, d, b) ensures Sum(p, d, b).count > 0 {
      InsertedCount(p, d, b);
    }
  }

  // ----- subtraction -----

  /** What is in `a` only, inserted, and what is in `b` only, erased. */
  ghost function Difference(a: Items, b: Items): Items {
    map k | k in a.Keys + b.Keys && ((k in a) != (k in b)) :: if k in a then a[k] else b[k].(sign := -b[k].sign)
  }

  ghost predicate Agree(a: Items, b: Items) {
    forall k :: k in a && k in b ==> a[k] == b[k]
  }

  lemma OppositePlus(a: Total, b: Total)
    requires |a.value| == |b.value|
    ensures Opposite(Plus(a, b)) == Plus(Opposite(a), Opposite(b))
  {
  }

  lemma OppositeCell(p: Params, k: Key, item: Item, b: nat)
    requires p.width > 0 && |item.value| == p.valueSize
    ensures InCell(p, k, item.(sign := -item.sign), b) == Opposite(InCell(p, k, item, b))
  {
  }

  /** The shared items cancel. */
  lemma {:induction false} SumDifference(p: Params, a: Items, b: Items, c: nat)
    requires p.width > 0 && ItemsOk(p, a) && ItemsOk(p, b) && Agree(a, b) && ItemsOk(p, Difference(a, b))
    ensures Sum(p, Difference(a, b), c) == Plus(Opposite(Sum(p, b, c)), Sum(p, a, c))
    decreases |b|
  {
    hide Plus, InCell, Sum, Nothing, Opposite, Difference;
    var sa := Sum(p, a, c);
    if |b| == 0 {
      NoDifference(a, b);
      EmptySum(p, b, c);
      PlusNothing(sa);
    } else {
      var k := SumPick(p, b, c);
      var b' := b - {k};
      var (x, s, sb) := (InCell(p, k, b[k], c), Sum(p, Difference(a, b), c), Sum(p, b', c));
      DifferenceStep(p, a, b, k);
      SumDifference(p, a, b', c);
      if k in a {
        SumRemove(p, Difference(a, b'), c, k);
        PlusUndo(x, s);
      } else {
        SumRemove(p, Difference(a, b), c, k);
        OppositeCell(p, k, b[k], c);
      }
      TakeAwayMore(x, sb, sa);
    }
  }

  lemma NoDifference(a: Items, b: Items)
    requires |b| == 0
    ensures Difference(a, b) == a
  {
  }

  /** One item of `b` fewer puts a shared item into the difference, or takes an unshared one out. */
  lemma DifferenceStep(p: Params, a: Items, b: Items, k: Key)
    requires k in b && ItemsOk(p, a) && ItemsOk(p, b) && Agree(a, b)
    ensures ItemsOk(p, Difference(a, b)) && ItemsOk(p, Difference(a, b - {k})) && Agree(a, b - {k})
    ensures k in a ==>
              var d := Difference(a, b - {k});
              k in d && d[k] == b[k] && d - {k} == Difference(a, b)
    ensures k !in a ==>
              var d := Difference(a, b);
              k in d && d[k] == b[k].(sign := -b[k].sign) && d - {k} == Difference(a, b - {k})
  {
  }

  lemma TakeAwayMore(x: Total, sb: Total, sa: Total)
    requires |x.value| == |sb.value| == |sa.value|
    ensures Plus(Opposite(Plus(x, sb)), sa) == Plus(Opposite(x), Plus(Opposite(sb), sa))
  {
    hide Plus, Opposite;
    OppositePlus(x, sb);
    PlusLaws(Opposite(x), Opposite(sb), sa);
  }

  lemma EmptySum(p: Params, d: Items, b: nat)
    requires p.width > 0 && ItemsOk(p, d) && |d| == 0
    ensures Opposite(Sum(p, d, b)) == Nothing(p.valueSize)
  {
  }

  /** A cell of the subtraction. */
  function Subtracted(e: Entry, f: Entry): Entry {
    Bumped(e, Total(-f.count, f.keySum, f.keyCheck, f.valueSum))
  }

  lemma SubtractCell(p: Params, a: Items, b: Items, e: Entry, f: Entry, c: nat)
    requires ParamsOk(p) && ItemsOk(p, a) && ItemsOk(p, b) && Agree(a, b)
    requires ItemsOk(p, Difference(a, b)) && EmptyRight(p, Difference(a, b)) && c < Cells(p)
    requires CellOk(e, Sum(p, a, c), Touched(p, a, c)) && CellOk(f, Sum(p, b, c), Touched(p, b, c))
    ensures CellOk(Subtracted(e, f), Sum(p, Difference(a, b), c), Touched(p, Difference(a, b), c))
  {
    hide Xor, Sum, Touched, VecXor, Difference, EmptyRight, Bumped, Plus;
    var d := Difference(a, b);
    SumDifference(p, a, b, c);
    if Touched(p, b, c) {
      BumpedCell(p, a, d, Opposite(Sum(p, b, c)), e, c);
    } else {
      Untouched(p, b, c);
      PlusNothing(Sum(p, a, c));
      SameTouched(p, a, b, c);
      NoneSubtracted(p, d, e, f, c);
    }
  }

  lemma IsSubtracted(e: Entry, f: Entry, c: Entry)
    requires c.count == e.count - f.count && c.keySum == Xor(e.keySum, f.keySum) && c.keyCheck == Xor(e.keyCheck, f.keyCheck)
    requires c.valueSum == if IsEmpty(c) then [] else Added(e.valueSum, f.valueSum)
    ensures c == Subtracted(e, f)
  {
    IsBumped(e, Total(-f.count, f.keySum, f.keyCheck, f.valueSum), c);
  }

  lemma SubtractTable(p: Params, a: Items, b: Items, left: seq<Entry>, right: seq<Entry>, r: seq<Entry>)
    requires ParamsOk(p) && ItemsOk(p, a) && ItemsOk(p, b) && Agree(a, b)
    requires ItemsOk(p, Difference(a, b)) && EmptyRight(p, Difference(a, b))
    requires TableOk(p, a, left) && TableOk(p, b, right)
    requires |r| == |left| && forall c :: 0 <= c < |left| ==> r[c] == Subtracted(left[c], right[c])
    ensures TableOk(p, Difference(a, b), r)
  {
    hide Sum, Touched, CellOk, Difference, EmptyRight, Subtracted;
    forall c | 0 <= c < |r|
      ensures CellOk(r[c], Sum(p, Difference(a, b), c), Touched(p, Difference(a, b), c))
    {
      SubtractCell(p, a, b, left[c], right[c], c);
    }
  }

  lemma NoneSubtracted(p: Params, d: Items, e: Entry, f: Entry, c: nat)
    requires ParamsOk(p) && ItemsOk(p, d) && EmptyRight(p, d) && c < Cells(p)
    requires CellOk(e, Sum(p, d, c), Touched(p, d, c)) && CellOk(f, Nothing(p.valueSize), false)
    ensures CellOk(Subtracted(e, f), Sum(p, d, c), Touched(p, d, c))
  {
    hide Xor, Sum, Touched;
    XorLaws(e.keySum, 0);
    XorLaws(e.keyCheck, 0);
    AddedCases(e.valueSum, []);
  }

  lemma SameTouched(p: Params, a: Items, b: Items, c: nat)
    requires p.width > 0 && !Touched(p, b, c)
    ensures Touched(p, Difference(a, b), c) <==> Touched(p, a, c)
  {
    hide InBucket;
    var d := Difference(a, b);
    if Touched(p, a, c) {
      var k: Key :| k in a && InBucket(p, k, c);
      assert k in d;
    }
    if Touched(p, d, c) {
      var k: Key :| k in d && InBucket(p, k, c);
      assert k in a;
    }
  }

  // ----- peeling -----

  lemma AloneSum(p: Params, d: Items, k: Key, b: nat)
    requires p.width > 0 && ItemsOk(p, d) && Alone(p, d, k, b)
    ensures Sum(p, d, b) == Contribution(p, k, d[k]) && Touched(p, d, b)
  {
    hide Sum, InBucket, Plus, Nothing, Contribution;
    SumRemove(p, d, b, k);
    Untouched(p, d - {k}, b);
    PlusNothing(Contribution(p, k, d[k]));
  }

  /** A cell that looks pure shows its only item. */
  lemma PureCell(p: Params, d: Items, e: Entry, b: nat) returns (k: Key)
    requires ParamsOk(p) && ItemsOk(p, d) && PureRight(p, d) && b < Cells(p)
    requires CellOk(e, Sum(p, d, b), Touched(p, d, b)) && IsPure(p, e)
    ensures Alone(p, d, k, b) && e.keySum == k && e.count == d[k].sign && e.valueSum == d[k].value
  {
    hide Sum, Alone, Touched;
    k :| Alone(p, d, k, b);
    AloneSum(p, d, k, b);
    AloneIn(p, d, k, b);
  }

  lemma AloneIn(p: Params, d: Items, k: Key, b: nat)
    requires p.width > 0 && Alone(p, d, k, b)
    ensures k in d
  {
  }

  /** Every key has a cell in the first partition. */
  lemma FirstPartition(p: Params, d: Items, table: seq<Entry>)
    requires ParamsOk(p) && ItemsOk(p, d) && EmptyRight(p, d) && TableOk(p, d, table) && p.width <= |table|
    ensures d == map[] <==> forall b :: 0 <= b < p.width ==> IsEmpty(table[b])
  {
    hide Sum, InBucket;
    if d == map[] {
      forall b | 0 <= b < p.width ensures IsEmpty(table[b]) {
        Untouched(p, d, b);
      }
    } else {
      var k :| k in d;
      var b := Bucket(p, k, 0);
      BucketPlace(p, k, 0);
      assert Touched(p, d, b);
      assert !IsEmpty(table[b]);
    }
  }

  lemma BucketPlace(p: Params, k: Key, i: nat)
    requires p.width > 0
    ensures i * p.width <= Bucket(p, k, i) < (i + 1) * p.width
    ensures Bucket(p, k, i) / p.width == i && InBucket(p, k, Bucket(p, k, i))
  {
    var r := p.hash(i, k) % p.width;
    DivModUnique(i * p.width + r, p.width, i, r);
    assert (i + 1) * p.width == i * p.width + p.width;
  }

  lemma TableWidth(p: Params)
    requires ParamsOk(p)
    ensures p.width <= p.numHashes * p.width && (p.numHashes * p.width) / p.numHashes == p.width
  {
    MulMono(p.width, 1, p.numHashes);
    DivModUnique(p.numHashes * p.width, p.numHashes, p.width, 0);
  }

  lemma FaithfulPart(p: Params, d: Items, s: Items)
    requires ParamsOk(p) && ItemsOk(p, d) && Faithful(p, d) && PeelsTo(p, d, s)
    ensures Part(s, d) && ItemsOk(p, s) && EmptyRight(p, s) && PureRight(p, s)
  {
    hide EmptyRight, PureRight, PeelsTo;
    PeelsPart(p, d, s);
  }

  type Listing = map<Key, Bytes>

  /** The values of the items of one sign that have been peeled off. */
  ghost function Recovered(d: Items, left: Items, sign: int): Listing {
    map k | k in d && k !in left && d[k].sign == sign :: d[k].value
  }

  /** A map's own entries are not overwritten. */
  function Emplace(m: Listing, k: Key, v: Bytes): Listing {
    if k in m then m else m[k := v]
  }

  lemma RecoverOne(d: Items, left: Items, k: Key, sign: int, given: Listing)
    requires k in left && Part(left, d)
    ensures d[k].sign == sign ==>
              Emplace(Recovered(d, left, sign) + given, k, d[k].value) == Recovered(d, left - {k}, sign) + given
    ensures d[k].sign != sign ==> Recovered(d, left - {k}, sign) == Recovered(d, left, sign)
  {
    if d[k].sign == sign {
      assert Recovered(d, left - {k}, sign) == Recovered(d, left, sign)[k := d[k].value];
    }
  }

  // ----- the table -----

  class Table {
    const p: Params
    var cells: seq<Entry>

    /** An empty table. */
    constructor (p: Params)
      requires ParamsOk(p)
      ensures this.p == p && TableOk(p, map[], cells)
    {
      this.p := p;
      cells := seq(p.numHashes * p.width, _ => Entry(0, 0, 0, []));
      new;
      hide Sum, InBucket;
      forall b | 0 <= b < |cells| ensures CellOk(cells[b], Sum(p, map[], b), Touched(p, map[], b)) {
        Untouched(p, map[], b);
      }
    }

    /** A copy. */
    constructor Copy(from: Table)
      ensures p == from.p && cells == from.cells
    {
      p := from.p;
      cells := from.cells;
    }

    method Update(delta: int, k: Key, value: Bytes)
      requires ParamsOk(p) && |cells| == p.numHashes * p.width && |value| == p.valueSize
      modifies this`cells
      ensures Updated(p, k, Total(delta, k, CheckOf(p, k), value), old(cells), cells)
    {
      hide InBucket, Bumped, Bucket, Partly;
      var check := CheckOf(p, k);
      ghost var (before, t) := (cells, Total(delta, k, check, value));
      PartlyStart(p, k, t, cells);
      var i := 0;
      while i < p.numHashes
        invariant 0 <= i <= p.numHashes && |cells| == |before| && Partly(p, k, t, before, cells, i)
      {
        var bucket := Bucket(p, k, i);
        PartlyStep(p, k, t, before, cells, i);
        var e := cells[bucket];
        var c := Entry(e.count + delta, Xor(e.keySum, k), Xor(e.keyCheck, check), e.valueSum);
        if IsEmpty(c) {
          c := c.(valueSum := []);
        } else {
          var v := AddValue(c.valueSum, value);
          c := c.(valueSum := v);
        }
        IsBumped(e, t, c);
        cells := cells[bucket := c];
        i := i + 1;
      }
      PartlyDone(p, k, t, before, cells);
    }

    /** Adds one insertion of an item to its cells. The table then stands for the items with this one, or without it if its
        erasure was among them, where no cell of the result misleads the emptiness test; none does if all were inserted. */
    method Insert(k: Key, value: Bytes, ghost d: Items)
      requires ParamsOk(p) && ItemsOk(p, d) && |value| == p.valueSize && TableOk(p, d, cells)
      modifies this`cells
      ensures Updated(p, k, Contribution(p, k, Item(1, value)), old(cells), cells)
      ensures Cancels(d, k, Item(1, value)) && RightWith(p, d, k, Item(1, value)) ==> StandsWith(p, d, k, Item(1, value), cells)
      ensures AllInserted(d) && k !in d ==> ItemsOk(p, d[k := Item(1, value)]) && TableOk(p, d[k := Item(1, value)], cells)
    {
      hide EmptyRight, Updated, TableOk;
      TableSize(p, d, cells);
      ghost var before := cells;
      Update(1, k, value);
      UpdateSigned(p, d, k, Item(1, value), before, cells);
      if AllInserted(d) && k !in d {
        InsertedRight(p, d[k := Item(1, value)]);
      }
    }

    /** Adds one erasure of an item to its cells. The table then stands for the items without this one, as if it had never been
        in, or with its erasure if it was not in, where no cell of the result misleads the emptiness test. */
    method Erase(k: Key, value: Bytes, ghost d: Items)
      requires ParamsOk(p) && ItemsOk(p, d) && |value| == p.valueSize && TableOk(p, d, cells)
      modifies this`cells
      ensures Updated(p, k, Contribution(p, k, Item(-1, value)), old(cells), cells)
      ensures Cancels(d, k, Item(-1, value)) && RightWith(p, d, k, Item(-1, value)) ==>
                StandsWith(p, d, k, Item(-1, value), cells)
      ensures AllInserted(d) && k in d && d[k].value == value ==> TableOk(p, d - {k}, cells)
    {
      hide EmptyRight, Updated, TableOk;
      TableSize(p, d, cells);
      ghost var before := cells;
      Update(-1, k, value);
      UpdateSigned(p, d, k, Item(-1, value), before, cells);
      if AllInserted(d) && k in d && d[k].value == value {
        InsertedRight(p, d - {k});
      }
    }

    method Subtract(other: Table, ghost a: Items, ghost b: Items) returns (r: Table)
      requires ParamsOk(p) && other.p == p && ItemsOk(p, a) && ItemsOk(p, b) && Agree(a, b)
      requires TableOk(p, a, cells) && TableOk(p, b, other.cells)
      requires ItemsOk(p, Difference(a, b)) && EmptyRight(p, Difference(a, b))
      ensures fresh(r) && r.p == p && TableOk(p, Difference(a, b), r.cells)
    {
      hide Sum, Touched, CellOk, Difference, EmptyRight, Bumped, Subtracted;
      r := new Table.Copy(this);
      var i := 0;
      while i < |cells|
        invariant 0 <= i <= |cells| == |other.cells| && |r.cells| == |cells|
        invariant forall c :: 0 <= c < i ==> r.cells[c] == Subtracted(cells[c], other.cells[c])
        invariant forall c :: i <= c < |cells| ==> r.cells[c] == cells[c]
      {
        var e, f := r.cells[i], other.cells[i];
        var c := Entry(e.count - f.count, Xor(e.keySum, f.keySum), Xor(e.keyCheck, f.keyCheck), e.valueSum);
        if IsEmpty(c) {
          c := c.(valueSum := []);
        } else {
          var v := AddValue(c.valueSum, f.valueSum);
          c := c.(valueSum := v);
        }
        IsSubtracted(e, f, c);
        r.cells := r.cells[i := c];
        i := i + 1;
      }
      SubtractTable(p, a, b, cells, other.cells, r.cells);
    }

    /** Peels one cell of a table that stands for `left`. */
    method Peel(i: nat, ghost d: Items, ghost left: Items) returns (ghost k: Key)
      requires ParamsOk(p) && ItemsOk(p, d) && Faithful(p, d) && PeelsTo(p, d, left) && ItemsOk(p, left)
      requires TableOk(p, left, cells) && i < |cells| && IsPure(p, cells[i])
      modifies this`cells
      ensures k in left && k in d && Alone(p, left, k, i)
      ensures k == old(cells[i].keySum) && d[k].sign == old(cells[i].count) && d[k].value == old(cells[i].valueSum)
      ensures PeelsTo(p, d, left - {k}) && ItemsOk(p, left - {k}) && TableOk(p, left - {k}, cells)
    {
      hide Faithful, PeelsTo, EmptyRight, PureRight, Sum, Touched, Updated, IsPure, Alone;
      FaithfulPart(p, d, left);
      k := PureCell(p, left, cells[i], i);
      AloneIn(p, left, k, i);
      PeelsOne(p, d, left, k, i);
      FaithfulPart(p, d, left - {k});
      var e := cells[i];
      ghost var before := cells;
      Update(-e.count, e.keySum, e.valueSum);
      UpdateRemoves(p, left, k, before, cells);
    }

    /** One pass over the cells, peeling and listing whatever is pure when it is reached. */
    method PeelRound(positiveIn: Listing, negativeIn: Listing, ghost d: Items, ghost start: Items,
                     ghost given: (Listing, Listing))
      returns (erased: bool, positive: Listing, negative: Listing, ghost left: Items)
      requires ParamsOk(p) && ItemsOk(p, d) && Faithful(p, d)
      requires Decoded(p, d, start, positiveIn, negativeIn, given) && TableOk(p, start, cells)
      modifies this`cells
      ensures Decoded(p, d, left, positive, negative, given) && TableOk(p, left, cells)
      ensures if erased then |left| < |start| else left == start && Stuck(p, left)
    {
      hide Faithful, Sum, Touched, CellOk, Alone, Part, TableOk, IsPure, Stuck, Decoded, PeelsTo;
      erased, positive, negative, left := false, positiveIn, negativeIn, start;
      DecodedParts(p, d, left, positive, negative, given);
      TableSize(p, left, cells);
      var i := 0;
      while i < |cells|
        invariant 0 <= i <= |cells| == p.numHashes * p.width && ItemsOk(p, left) && PeelsTo(p, d, left)
        invariant Decoded(p, d, left, positive, negative, given) && TableOk(p, left, cells)
        invariant if erased then |left| < |start| else left == start && NoPure(p, cells, i)
      {
        var e := cells[i];
        if IsPure(p, e) {
          ghost var k := Peel(i, d, left);
          DecodedStep(p, d, left, k, i, positive, negative, given);
          if e.count == 1 {
            positive := Emplace(positive, e.keySum, e.valueSum);
          } else {
            negative := Emplace(negative, e.keySum, e.valueSum);
          }
          left := left - {k};
          DecodedParts(p, d, left, positive, negative, given);
          TableSize(p, left, cells);
          erased := true;
        }
        i := i + 1;
      }
      if !erased {
        IsStuck(p, left, cells);
      }
    }

    /** Decodes a table that stands for `d`: the listed keys and values are items of `d`, and the answer is true exactly when they
        are all of them. What is left is the largest part of `d` that cannot be peeled, so the outcome does not depend on the
        order of peeling. */
    method ListEntries(positiveIn: Listing, negativeIn: Listing, ghost d: Items)
      returns (ok: bool, positive: Listing, negative: Listing, ghost left: Items)
      requires ParamsOk(p) && ItemsOk(p, d) && Faithful(p, d) && TableOk(p, d, cells)
      ensures Part(left, d) && (ok <==> left == map[])
      ensures positive == Recovered(d, left, 1) + positiveIn && negative == Recovered(d, left, -1) + negativeIn
      ensures Stuck(p, left) && HoldsStuck(p, d, left)
    {
      hide Faithful, Sum, Touched, CellOk, Alone, Recovered, Part, TableOk, IsPure, Stuck, HoldsStuck, Decoded, PeelsTo;
      positive, negative, left := positiveIn, negativeIn, d;
      ghost var given := (positiveIn, negativeIn);
      DecodedStart(p, d, positiveIn, negativeIn);
      var peeled := new Table.Copy(this);
      var erased := true;
      while erased
        invariant fresh(peeled) && peeled.p == p && ItemsOk(p, left) && TableOk(p, left, peeled.cells)
        invariant Decoded(p, d, left, positive, negative, given) && (!erased ==> Stuck(p, left))
        decreases |left|, erased
      {
        erased, positive, negative, left := peeled.PeelRound(positive, negative, d, left, given);
        DecodedParts(p, d, left, positive, negative, given);
      }
      DecodedParts(p, d, left, positive, negative, given);
      FaithfulPart(p, d, left);
      FirstEmpty(p, left, peeled.cells);
      var i := 0;
      while i < |peeled.cells| / p.numHashes
        invariant 0 <= i <= p.width && forall b :: 0 <= b < i ==> IsEmpty(peeled.cells[b])
      {
        if !IsEmpty(peeled.cells[i]) {
          return false, positive, negative, left;
        }
        i := i + 1;
      }
      return true, positive, negative, left;
    }

    /** One pass over the cells, peeling whatever is pure when it is reached, until `key` shows up. */
    method PeelFor(key: Key, ghost d: Items) returns (found: bool, erased: bool, value: Bytes, ghost left: Items)
      requires ParamsOk(p) && ItemsOk(p, d) && Faithful(p, d) && TableOk(p, d, cells)
      modifies this`cells
      ensures found ==> key in d && value == d[key].value
      ensures !found ==> value == [] && ItemsOk(p, left) && PeelsTo(p, d, left) && TableOk(p, left, cells)
      ensures !found ==> (key in left <==> key in d)
      ensures !found ==> if erased then |left| < |d| else left == d && Stuck(p, left)
    {
      hide Faithful, Sum, Touched, CellOk, Alone, Part, TableOk, IsPure, Stuck, PeelsTo;
      found, erased, value, left := false, false, [], d;
      PeelsAll(p, d);
      TableSize(p, d, cells);
      var i := 0;
      while i < |cells|
        invariant 0 <= i <= |cells| == p.numHashes * p.width && value == []
        invariant ItemsOk(p, left) && PeelsTo(p, d, left) && TableOk(p, left, cells)
        invariant key in left <==> key in d
        invariant if erased then |left| < |d| else left == d && NoPure(p, cells, i)
      {
        var e := cells[i];
        if IsPure(p, e) {
          PeelsPart(p, d, left);
          ghost var k := Peel(i, d, left);
          PartKey(d, left, k);
          if e.keySum == key {
            return true, erased, e.valueSum, left;
          }
          erased := true;
          left := left - {k};
          TableSize(p, left, cells);
        }
        i := i + 1;
      }
      if !erased {
        IsStuck(p, d, cells);
      }
    }

    /** Looks up a key in a table that stands for `d`. A true answer is right: the key's value, or nothing when it is not there.
        It gives up only when nothing more can be peeled and every cell of the key is in use by what is left, which then
        contains the key if `d` does. */
    method Get(key: Key, ghost d: Items) returns (ok: bool, value: Bytes, ghost left: Items)
      requires ParamsOk(p) && ItemsOk(p, d) && Faithful(p, d) && TableOk(p, d, cells)
      ensures ok ==> value == if key in d then d[key].value else []
      ensures !ok ==> value == []
      ensures !ok ==> Part(left, d) && Stuck(p, left) && (key in d <==> key in left)
      ensures !ok ==> forall i :: 0 <= i < p.numHashes ==> Touched(p, left, Bucket(p, key, i))
      decreases |d|
    {
      hide Faithful, Sum, Touched, CellOk, Alone, Part, TableOk, IsPure, IsEmpty, InBucket, Bucket, PureRight, EmptyRight;
      hide Stuck, PeelsTo;
      value, left := [], d;
      WholePart(d, map[], map[]);
      PeelsAll(p, d);
      FaithfulPart(p, d, d);
      TableSize(p, d, cells);
      var i := 0;
      while i < p.numHashes
        invariant 0 <= i <= p.numHashes && forall j :: 0 <= j < i ==> Touched(p, d, Bucket(p, key, j))
      {
        var bucket := Bucket(p, key, i);
        BucketPlace(p, key, i);
        InTable(p, i, bucket);
        var e := cells[bucket];
        if IsEmpty(e) {
          EmptyMeansAbsent(p, d, cells, bucket, key);
          return true, [], left;
        }
        InUse(p, d, cells, bucket);
        if IsPure(p, e) {
          PureMeansKnown(p, d, cells, bucket, key);
          if e.keySum == key {
            value := e.valueSum;
          }
          return true, value, left;
        }
        i := i + 1;
      }
      var peeled := new Table.Copy(this);
      var found, erased;
      found, erased, value, left := peeled.PeelFor(key, d);
      if found {
        return true, value, left;
      }
      if erased {
        FaithfulShrinks(p, d, left);
        PeelsPart(p, d, left);
        ghost var rest;
        ok, value, rest := peeled.Get(key, left);
        if key in d {
          PartKey(d, left, key);
        }
        if !ok {
          PartOfPart(rest, left, d);
        }
        left := rest;
        return;
      }
      return false, [], d;
    }

    /** The number of items, for a table of inserted items. */
    method Size(ghost d: Items) returns (n: nat)
      requires ParamsOk(p) && ItemsOk(p, d) && AllInserted(d) && TableOk(p, d, cells)
      ensures n == |d|
    {
      hide Sum, Touched, Counts;
      var sum: nat := 0;
      var i := 0;
      CountsStart(p, d);
      while i < |cells|
        invariant 0 <= i <= |cells| && sum == Counts(p, d, i)
      {
        var e := cells[i];
        assert CellOk(e, Sum(p, d, i), Touched(p, d, i));
        InsertedCount(p, d, i);
        CountsStep(p, d, i);
        sum := sum + if e.count < 0 then -e.count else e.count;
        i := i + 1;
      }
      CountsAll(p, d);
      DivModUnique(p.numHashes * |d|, p.numHashes, |d|, 0);
      n := sum / p.numHashes;
    }
  }

  ghost predicate NoPure(p: Params, table: seq<Entry>, n: nat) {
    forall b :: 0 <= b < n && b < |table| ==> !IsPure(p, table[b])
  }

  /** No cell of the items left can be peeled. */
  ghost predicate Stuck(p: Params, left: Items)
    requires ParamsOk(p)
  {
    forall b: nat, k :: b < p.numHashes * p.width ==> !Alone(p, left, k, b)
  }

  /** Decoding so far: what has been listed is what is not left, and every part that cannot be peeled is left. */
  ghost predicate Decoded(p: Params, d: Items, left: Items, positive: Listing, negative: Listing, given: (Listing, Listing))
    requires ParamsOk(p)
  {
    && ItemsOk(p, left) && PeelsTo(p, d, left) && HoldsStuck(p, d, left)
    && positive == Recovered(d, left, 1) + given.0 && negative == Recovered(d, left, -1) + given.1
  }

  lemma DecodedStart(p: Params, d: Items, positive: Listing, negative: Listing)
    requires ParamsOk(p) && ItemsOk(p, d)
    ensures Decoded(p, d, d, positive, negative, (positive, negative))
  {
    WholePart(d, positive, negative);
    AllHoldsStuck(p, d);
    PeelsAll(p, d);
  }

  lemma DecodedParts(p: Params, d: Items, left: Items, positive: Listing, negative: Listing, given: (Listing, Listing))
    requires ParamsOk(p) && Decoded(p, d, left, positive, negative, given)
    ensures ItemsOk(p, left) && PeelsTo(p, d, left) && Part(left, d) && HoldsStuck(p, d, left)
    ensures positive == Recovered(d, left, 1) + given.0 && negative == Recovered(d, left, -1) + given.1
  {
    hide PeelsTo, HoldsStuck;
    PeelsPart(p, d, left);
  }

  lemma DecodedStep(p: Params, d: Items, left: Items, k: Key, b: nat, positive: Listing, negative: Listing,
                    given: (Listing, Listing))
    requires ParamsOk(p) && ItemsOk(p, d) && Decoded(p, d, left, positive, negative, given)
    requires k in left && k in d && b < p.numHashes * p.width && Alone(p, left, k, b)
    ensures d[k].sign == 1 ==> Decoded(p, d, left - {k}, Emplace(positive, k, d[k].value), negative, given)
    ensures d[k].sign != 1 ==> Decoded(p, d, left - {k}, positive, Emplace(negative, k, d[k].value), given)
    ensures |left - {k}| < |left|
  {
    hide Alone, Recovered, HoldsStuck, Emplace, PeelsTo;
    PeelsPart(p, d, left);
    PeelsOne(p, d, left, k, b);
    SignIs(p, d, k, left);
    RecoverOne(d, left, k, 1, given.0);
    RecoverOne(d, left, k, -1, given.1);
    PeelHoldsStuck(p, d, left, k, b);
    PartLess(left, d, k);
    PartOk(p, d, left - {k});
  }

  lemma PartLess(left: Items, d: Items, k: Key)
    requires Part(left, d) && k in left
    ensures Part(left - {k}, d) && |left - {k}| < |left|
  {
    assert left.Keys == (left - {k}).Keys + {k};
  }

  /** Every part of `d` that cannot be peeled is in `left`. */
  ghost predicate HoldsStuck(p: Params, d: Items, left: Items)
    requires ParamsOk(p)
  {
    forall s: Items :: Part(s, d) && Stuck(p, s) ==> Part(s, left)
  }

  lemma AllHoldsStuck(p: Params, d: Items)
    requires ParamsOk(p)
    ensures HoldsStuck(p, d, d)
  {
  }

  /** An item alone in a cell belongs to no part that cannot be peeled. */
  lemma PeelHoldsStuck(p: Params, d: Items, left: Items, k: Key, b: nat)
    requires ParamsOk(p) && HoldsStuck(p, d, left) && b < p.numHashes * p.width && Alone(p, left, k, b)
    ensures HoldsStuck(p, d, left - {k})
  {
    forall s: Items | Part(s, d) && Stuck(p, s)
      ensures Part(s, left - {k})
    {
      assert Part(s, left);
      assert !Alone(p, s, k, b);
    }
  }

  lemma PartOfPart(a: Items, b: Items, c: Items)
    requires Part(a, b) && Part(b, c)
    ensures Part(a, c)
  {
  }

  lemma InUse(p: Params, d: Items, table: seq<Entry>, b: nat)
    requires ParamsOk(p) && ItemsOk(p, d) && TableOk(p, d, table) && b < |table| && !IsEmpty(table[b])
    ensures Touched(p, d, b)
  {
    if !Touched(p, d, b) {
      Untouched(p, d, b);
      assert false;
    }
  }

  lemma IsStuck(p: Params, left: Items, table: seq<Entry>)
    requires ParamsOk(p) && ItemsOk(p, left) && TableOk(p, left, table) && NoPure(p, table, |table|)
    ensures Stuck(p, left)
  {
    hide Sum, Alone, Touched;
    forall b: nat, k | b < |table| && Alone(p, left, k, b) ensures false {
      AloneIn(p, left, k, b);
      AloneSum(p, left, k, b);
    }
  }

  lemma WholePart(d: Items, positive: Listing, negative: Listing)
    ensures Part(d, d)
    ensures positive == Recovered(d, d, 1) + positive && negative == Recovered(d, d, -1) + negative
  {
    assert Recovered(d, d, 1) == map[] && Recovered(d, d, -1) == map[];
    assert map[] + positive == positive && map[] + negative == negative;
  }

  lemma SignIs(p: Params, d: Items, k: Key, left: Items)
    requires ItemsOk(p, d) && Part(left, d) && k in left
    ensures k in d && d[k] == left[k] && (d[k].sign == 1 || d[k].sign == -1)
  {
  }

  lemma PartOk(p: Params, d: Items, s: Items)
    requires ItemsOk(p, d) && Part(s, d)
    ensures ItemsOk(p, s)
  {
  }

  lemma PartKey(d: Items, s: Items, k: Key)
    requires Part(s, d) && k in s
    ensures k in d && d[k] == s[k]
  {
  }

  lemma FaithfulShrinks(p: Params, d: Items, s: Items)
    requires ParamsOk(p) && Faithful(p, d) && PeelsTo(p, d, s)
    ensures Faithful(p, s)
  {
    hide EmptyRight, PureRight, PeelsTo;
    forall t: Items | PeelsTo(p, s, t) && ItemsOk(p, t) ensures EmptyRight(p, t) && PureRight(p, t) {
      PeelsTrans(p, d, s, t);
    }
  }

  lemma FirstEmpty(p: Params, left: Items, table: seq<Entry>)
    requires ParamsOk(p) && ItemsOk(p, left) && EmptyRight(p, left) && TableOk(p, left, table)
    ensures |table| / p.numHashes == p.width <= |table|
    ensures left == map[] <==> forall b :: 0 <= b < p.width ==> IsEmpty(table[b])
  {
    hide Sum, Touched, EmptyRight;
    TableWidth(p);
    FirstPartition(p, left, table);
  }

  lemma EmptyMeansAbsent(p: Params, d: Items, table: seq<Entry>, b: nat, key: Key)
    requires ParamsOk(p) && ItemsOk(p, d) && EmptyRight(p, d) && TableOk(p, d, table)
    requires b < |table| && IsEmpty(table[b]) && InBucket(p, key, b)
    ensures key !in d
  {
    hide Sum, InBucket;
    assert CellOk(table[b], Sum(p, d, b), Touched(p, d, b));
  }

  lemma PureMeansKnown(p: Params, d: Items, table: seq<Entry>, b: nat, key: Key)
    requires ParamsOk(p) && ItemsOk(p, d) && PureRight(p, d) && TableOk(p, d, table)
    requires b < |table| && IsPure(p, table[b]) && InBucket(p, key, b)
    ensures if table[b].keySum == key then key in d && d[key].value == table[b].valueSum else key !in d
  {
    hide Sum, InBucket, Touched, PureRight;
    var k := PureCell(p, d, table[b], b);
  }

  // ----- counting -----

  /** The counts of the first `n` cells. */
  ghost function Counts(p: Params, d: Items, n: nat): int
    requires p.width > 0 && ItemsOk(p, d)
  {
    if n == 0 then 0 else Counts(p, d, n - 1) + Sum(p, d, n - 1).count
  }

  lemma CountsStart(p: Params, d: Items)
    requires p.width > 0 && ItemsOk(p, d)
    ensures Counts(p, d, 0) == 0
  {
  }

  lemma CountsStep(p: Params, d: Items, n: nat)
    requires p.width > 0 && ItemsOk(p, d)
    ensures Counts(p, d, n + 1) == Counts(p, d, n) + Sum(p, d, n).count
  {
  }

  /** The cells of a key among the first `n`. */
  ghost function Hits(p: Params, k: Key, n: nat): nat
    requires p.width > 0
  {
    if n == 0 then 0 else Hits(p, k, n - 1) + if InBucket(p, k, n - 1) then 1 else 0
  }

  lemma {:induction false} CountsRemove(p: Params, d: Items, k: Key, n: nat)
    requires p.width > 0 && ItemsOk(p, d) && k in d
    ensures Counts(p, d, n) == Counts(p, d - {k}, n) + d[k].sign * Hits(p, k, n)
  {
    hide InBucket, Sum, Xor, VecXor;
    if n > 0 {
      CountsRemove(p, d, k, n - 1);
      SumRemove(p, d, n - 1, k);
      assert d[k].sign * (Hits(p, k, n - 1) + 1) == d[k].sign * Hits(p, k, n - 1) + d[k].sign;
    }
  }

  lemma {:induction false} PartitionHits(p: Params, k: Key, i: nat, r: nat)
    requires p.width > 0 && r <= p.width
    ensures Hits(p, k, i * p.width + r) == Hits(p, k, i * p.width) + if p.hash(i, k) % p.width < r then 1 else 0
  {
    if r > 0 {
      PartitionHits(p, k, i, r - 1);
      DivModUnique(i * p.width + r - 1, p.width, i, r - 1);
    }
  }

  /** A key has one cell in each partition. */
  lemma {:induction false} AllHits(p: Params, k: Key, i: nat)
    requires p.width > 0
    ensures Hits(p, k, i * p.width) == i
  {
    if i == 0 {
      NoHits(p, k);
    } else {
      hide Hits;
      AllHits(p, k, i - 1);
      PartitionHits(p, k, i - 1, p.width);
      assert (i - 1) * p.width + p.width == i * p.width;
    }
  }

  lemma NoHits(p: Params, k: Key)
    requires p.width > 0
    ensures Hits(p, k, 0 * p.width) == 0
  {
  }

  lemma {:induction false} CountsNone(p: Params, d: Items, n: nat)
    requires p.width > 0 && ItemsOk(p, d) && |d| == 0
    ensures Counts(p, d, n) == 0
  {
    if n > 0 {
      CountsNone(p, d, n - 1);
    }
  }

  lemma {:induction false} CountsAll(p: Params, d: Items)
    requires ParamsOk(p) && ItemsOk(p, d) && AllInserted(d)
    ensures Counts(p, d, p.numHashes * p.width) == p.numHashes * |d|
    decreases |d|
  {
    hide Counts, Hits;
    if |d| == 0 {
      CountsNone(p, d, p.numHashes * p.width);
    } else {
      var k :| k in d;
      CountsAll(p, d - {k});
      CountsRemove(p, d, k, p.numHashes * p.width);
      AllHits(p, k, p.numHashes);
      assert |d| == |d - {k}| + 1;
      assert p.numHashes * |d| == p.numHashes * |d - {k}| + p.numHashes;
    }
  }

  // ----- reconciliation -----

  ghost function Inserted(a: Listing): Items {
    map k | k in a :: Item(1, a[k])
  }

  /** Builds the table of a set of keys with values. */
  method Build(p: Params, a: Listing) returns (t: Table)
    requires ParamsOk(p) && forall k :: k in a ==> |a[k]| == p.valueSize
    ensures fresh(t) && t.p == p && ItemsOk(p, Inserted(a)) && TableOk(p, Inserted(a), t.cells)
  {
    hide TableOk;
    t := new Table(p);
    var rest := a.Keys;
    ghost var done: Items := map[];
    while rest != {}
      invariant fresh(t) && t.p == p && rest <= a.Keys && ItemsOk(p, done) && AllInserted(done) && TableOk(p, done, t.cells)
      invariant done == map k | k in a && k !in rest :: Item(1, a[k])
      decreases |rest|
    {
      var k :| k in rest;
      t.Insert(k, a[k], done);
      done := done[k := Item(1, a[k])];
      rest := rest - {k};
    }
    assert done == Inserted(a);
  }

  /** Values of the keys that the other set does not have. */
  ghost function Only(a: Listing, b: Listing): Listing {
    map k | k in a && k !in b :: a[k]
  }

  /** Two sets that agree on the keys they share: subtracting their tables and decoding, a true answer gives exactly the keys and
      values that each has and the other has not. The answer is true exactly when the difference has no part in which every
      cell in use holds more than one key. */
  method Reconcile(p: Params, a: Listing, b: Listing) returns (ok: bool, positive: Listing, negative: Listing)
    requires ParamsOk(p) && (forall k :: k in a ==> |a[k]| == p.valueSize) && (forall k :: k in b ==> |b[k]| == p.valueSize)
    requires forall k :: k in a && k in b ==> a[k] == b[k]
    requires Faithful(p, Difference(Inserted(a), Inserted(b)))
    ensures ok <==> forall s: Items :: Part(s, Difference(Inserted(a), Inserted(b))) && Stuck(p, s) ==> s == map[]
    ensures ok ==> positive == Only(a, b) && negative == Only(b, a)
    ensures forall k :: k in positive ==> k in Only(a, b) && positive[k] == a[k]
    ensures forall k :: k in negative ==> k in Only(b, a) && negative[k] == b[k]
  {
    hide Faithful, TableOk, Stuck, EmptyRight, PureRight, PeelsTo;
    ghost var d := Difference(Inserted(a), Inserted(b));
    PeelsAll(p, d);
    var ta := Build(p, a);
    var tb := Build(p, b);
    FaithfulPart(p, d, d);
    var t := ta.Subtract(tb, Inserted(a), Inserted(b));
    ghost var left;
    ok, positive, negative, left := t.ListEntries(map[], map[], d);
    RecoveredLeft(a, b, left);
    RecoveredRight(a, b, left);
    AllPeeled(p, d, left);
  }

  lemma AllPeeled(p: Params, d: Items, left: Items)
    requires ParamsOk(p) && Part(left, d) && Stuck(p, left) && HoldsStuck(p, d, left)
    ensures left == map[] <==> forall s: Items :: Part(s, d) && Stuck(p, s) ==> s == map[]
  {
    hide Stuck;
    if left == map[] {
      forall s: Items | Part(s, d) && Stuck(p, s)
        ensures s == map[]
      {
        assert Part(s, left);
        assert forall k :: k !in s;
      }
    }
  }

  lemma RecoveredLeft(a: Listing, b: Listing, left: Items)
    ensures var r := Recovered(Difference(Inserted(a), Inserted(b)), left, 1);
            && (left == map[] ==> r + map[] == Only(a, b))
            && (forall k :: k in r ==> k in Only(a, b) && r[k] == a[k])
  {
  }

  lemma RecoveredRight(a: Listing, b: Listing, left: Items)
    ensures var r := Recovered(Difference(Inserted(a), Inserted(b)), left, -1);
            && (left == map[] ==> r + map[] == Only(b, a))
            && (forall k :: k in r ==> k in Only(b, a) && r[k] == b[k])
  {
  }

  lemma TableSize(p: Params, d: Items, table: seq<Entry>)
    requires ParamsOk(p) && ItemsOk(p, d) && TableOk(p, d, table)
    ensures |table| == p.numHashes * p.width
  {
  }

  lemma InTable(p: Params, i: nat, b: nat)
    requires i < p.numHashes && b < (i + 1) * p.width
    ensures b < p.numHashes * p.width
  {
    MulMono(p.width, i + 1, p.numHashes);
  }

  lemma OnlyBucket(p: Params, k: Key, i: nat, b: nat)
    requires p.width > 0 && b != Bucket(p, k, i) && InBucket(p, k, b) && b < (i + 1) * p.width
    ensures b < i * p.width
  {
    if b >= i * p.width {
      DivModUnique(b, p.width, i, b - i * p.width);
    }
  }

  lemma IsBumped(e: Entry, t: Total, c: Entry)
    requires c.count == e.count + t.count && c.keySum == Xor(e.keySum, t.key) && c.keyCheck == Xor(e.keyCheck, t.check)
    requires c.valueSum == if IsEmpty(c) then [] else Added(e.valueSum, t.value)
    ensures c == Bumped(e, t)
  {
    hide Xor;
  }
}

/**
  The layered cache of unspent transaction outputs. Each cache sits on a database or on another cache, records changes with
  DIRTY and FRESH flags, writes them back in batches, and maintains the snapshot hash of the set it represents.

  The snapshot hash is an element of an abelian group to which outputs are added and from which they are subtracted; it is
  modelled by integers and an arbitrary contribution `h` of each output, so every statement holds for every choice of `h`.
 */
module Coins {

  datatype OutPoint = OutPoint(txid: nat, n: nat)

  type Script = seq<int>

  datatype TxOut = TxOut(value: int, script: Script)

  datatype Coin = Coin(out: TxOut, height: int, txType: int) {
    predicate IsSpent() {
      out.value == -1
    }
  }

  /** A cleared coin. */
  const EMPTY: Coin := Coin(TxOut(-1, []), 0, 0)

  datatype Entry = Entry(coin: Coin, isDirty: bool, isFresh: bool)

  type Utxos = map<OutPoint, Coin>

  type Cache = map<OutPoint, Entry>

  // ----- sums over finite maps -----

  ghost function Sum<V(!new)>(m: map<OutPoint, V>, f: (OutPoint, V) -> int): int
    decreases |m|
  {
    if m == map[] then 0
    else
      var k :| k in m;
      f(k, m[k]) + Sum(m - {k}, f)
  }

  lemma {:induction false} SumRemove<V(!new)>(m: map<OutPoint, V>, f: (OutPoint, V) -> int, k: OutPoint)
    requires k in m
    ensures Sum(m, f) == f(k, m[k]) + Sum(m - {k}, f)
    decreases |m|
  {
    var x :| x in m && Sum(m, f) == f(x, m[x]) + Sum(m - {x}, f);
    if x != k {
      SumRemove(m - {x}, f, k);
      SumRemove(m - {k}, f, x);
      assert m - {x} - {k} == m - {k} - {x};
    }
  }

  lemma SumSet<V(!new)>(m: map<OutPoint, V>, f: (OutPoint, V) -> int, k: OutPoint, v: V)
    ensures Sum(m[k := v], f) == f(k, v) + Sum(m - {k}, f)
  {
    SumRemove(m[k := v], f, k);
    assert m[k := v] - {k} == m - {k};
  }

  // ----- one cache over the set it is based on -----

  /** The set of unspent outputs seen through a cache. */
  function Overlay(below: Utxos, cache: Cache): Utxos {
    map op | op in below.Keys + cache.Keys && (op in cache ==> !cache[op].coin.IsSpent())
      :: if op in cache then cache[op].coin else below[op]
  }

  function DirtyPart(cache: Cache): Cache {
    map op | op in cache && cache[op].isDirty :: cache[op]
  }

  /** A clean entry agrees with the base, and a FRESH one has no unspent output there. */
  ghost predicate EntryOk(op: OutPoint, e: Entry, below: Utxos) {
    && (e.isFresh ==> op !in below)
    && (!e.isDirty ==> if e.coin.IsSpent() then op !in below else op in below && below[op] == e.coin)
  }

  ghost predicate LayerOk(cache: Cache, below: Utxos) {
    forall op :: op in cache ==> EntryOk(op, cache[op], below)
  }

  /** No entry to be written claims to be new to a set that already has the output. */
  ghost predicate FreshOk(cache: Cache, below: Utxos) {
    forall op :: op in cache && cache[op].isDirty && cache[op].isFresh ==> op !in below
  }

  lemma LayerGivesFresh(cache: Cache, below: Utxos)
    requires LayerOk(cache, below)
    ensures FreshOk(cache, below)
    ensures Overlay(below, DirtyPart(cache)) == Overlay(below, cache)
  {
    forall op
      ensures op in Overlay(below, DirtyPart(cache)) <==> op in Overlay(below, cache)
      ensures op in Overlay(below, cache) ==> Overlay(below, DirtyPart(cache))[op] == Overlay(below, cache)[op]
    {
      if op in cache {
        assert EntryOk(op, cache[op], below);
      }
    }
  }

  /** A cache entry written to its parent cache (which is based on `below`): the parent's new contents. */
  function Absorb(parent: Cache, op: OutPoint, e: Entry): Cache {
    if op !in parent then
      if e.isFresh && e.coin.IsSpent() then parent
      else parent[op := Entry(e.coin, true, e.isFresh)]
    else if parent[op].isFresh && e.coin.IsSpent() then parent - {op}
    else parent[op := Entry(e.coin, true, parent[op].isFresh)]
  }

  /** Absorbing one entry writes it to the parent's view, and keeps the parent in order. */
  lemma AbsorbStep(parent: Cache, below: Utxos, op: OutPoint, e: Entry)
    requires LayerOk(parent, below) && (e.isFresh ==> op !in Overlay(below, parent))
    ensures LayerOk(Absorb(parent, op, e), below)
    ensures Overlay(below, Absorb(parent, op, e)) == Overlay(Overlay(below, parent), map[op := e])
    ensures op in parent ==> !(e.isFresh && !parent[op].coin.IsSpent())
  {
    AbsorbKeeps(parent, below, op, e);
    assert op in parent ==> EntryOk(op, parent[op], below);
    hide LayerOk;
    var l := Overlay(below, Absorb(parent, op, e));
    var r := Overlay(Overlay(below, parent), map[op := e]);
    forall x
      ensures x in l <==> x in r
      ensures x in l ==> l[x] == r[x]
    {
    }
  }

  lemma AbsorbKeeps(parent: Cache, below: Utxos, op: OutPoint, e: Entry)
    requires LayerOk(parent, below) && (e.isFresh ==> op !in Overlay(below, parent))
    ensures LayerOk(Absorb(parent, op, e), below)
  {
    OverlayAt(below, parent, op);
    hide Overlay;
    var after := Absorb(parent, op, e);
    if op in parent {
      assert EntryOk(op, parent[op], below);
    }
    forall x | x in after
      ensures EntryOk(x, after[x], below)
    {
      if x != op {
        assert EntryOk(x, parent[x], below);
      }
    }
  }

  /** Writing entries one after the other is writing them together, as long as they are for different outputs. */
  lemma OverlayExtend(below: Utxos, done: Cache, op: OutPoint, e: Entry)
    requires op !in done
    ensures Overlay(Overlay(below, done), map[op := e]) == Overlay(below, done[op := e])
  {
    var l := Overlay(Overlay(below, done), map[op := e]);
    var r := Overlay(below, done[op := e]);
    forall x
      ensures x in l <==> x in r
      ensures x in l ==> l[x] == r[x]
    {
    }
  }

  lemma OverlayOne(below: Utxos, op: OutPoint, e: Entry)
    ensures Overlay(below, map[op := e]) == if e.coin.IsSpent() then below - {op} else below[op := e.coin]
  {
  }

  lemma WriteStart(below: Utxos, cache: Cache)
    ensures Overlay(below, DirtyPart(cache - cache.Keys)) == below
  {
  }

  /** Writing the next entry of a batch: `todo` are the outputs not yet visited. */
  lemma WriteStep(below: Utxos, cache: Cache, todo: set<OutPoint>, op: OutPoint)
    requires op in todo && todo <= cache.Keys
    ensures var view := Overlay(below, DirtyPart(cache - todo));
      Overlay(below, DirtyPart(cache - (todo - {op}))) ==
        if cache[op].isDirty then Overlay(view, map[op := cache[op]]) else view
    ensures FreshOk(cache, below) && cache[op].isDirty && cache[op].isFresh ==> op !in Overlay(below, DirtyPart(cache - todo))
  {
    var done := DirtyPart(cache - todo);
    var next := DirtyPart(cache - (todo - {op}));
    if cache[op].isDirty {
      assert next == done[op := cache[op]];
      OverlayExtend(below, done, op, cache[op]);
    } else {
      assert next == done;
    }
  }

  /** Caching an output that the base has changes nothing seen through the cache. */
  lemma FetchKeeps(cache: Cache, below: Utxos, op: OutPoint, coin: Coin)
    requires LayerOk(cache, below) && op !in cache && op in below && below[op] == coin && !coin.IsSpent()
    ensures LayerOk(cache[op := Entry(coin, false, false)], below)
    ensures Overlay(below, cache[op := Entry(coin, false, false)]) == Overlay(below, cache)
  {
  }

  lemma OverlayAt(below: Utxos, cache: Cache, op: OutPoint)
    ensures op in cache ==>
      (if cache[op].coin.IsSpent() then op !in Overlay(below, cache)
       else op in Overlay(below, cache) && Overlay(below, cache)[op] == cache[op].coin)
    ensures op !in cache ==>
      (if op in below then op in Overlay(below, cache) && Overlay(below, cache)[op] == below[op]
       else op !in Overlay(below, cache))
  {
  }

  /** The entry that an addition leaves behind. */
  function Added(cache: Cache, op: OutPoint, coin: Coin, possibleOverwrite: bool): Entry {
    var before := if op in cache then cache[op] else Entry(EMPTY, false, false);
    Entry(coin, true, before.isFresh || (!possibleOverwrite && !before.isDirty))
  }

  /** A cache's own entries and what its base shows. */
  datatype Layer = Layer(coins: Cache, below: Utxos)

  /** A lookup leaves a clean copy of what the base has. */
  function Fetched(l: Layer, op: OutPoint): Layer {
    if op !in l.coins && op in l.below then l.(coins := l.coins[op := Entry(l.below[op], false, false)]) else l
  }

  /** A spend removes a FRESH entry and leaves a spent mark over any other. */
  function SpentIn(l: Layer, op: OutPoint): Layer {
    if op !in l.coins then l
    else if l.coins[op].isFresh then l.(coins := l.coins - {op})
    else l.(coins := l.coins[op := Entry(EMPTY, true, false)])
  }

  function Uncached(l: Layer, op: OutPoint): Layer {
    if op in l.coins && !l.coins[op].isDirty && !l.coins[op].isFresh then l.(coins := l.coins - {op}) else l
  }

  lemma AddKeeps(cache: Cache, below: Utxos, op: OutPoint, coin: Coin, possibleOverwrite: bool)
    requires LayerOk(cache, below) && !coin.IsSpent()
    requires possibleOverwrite || op !in cache || cache[op].coin.IsSpent()
    ensures LayerOk(cache[op := Added(cache, op, coin, possibleOverwrite)], below) <==>
              possibleOverwrite || op in cache || op !in below
    ensures Overlay(below, cache[op := Added(cache, op, coin, possibleOverwrite)]) == Overlay(below, cache)[op := coin]
  {
    var after := cache[op := Added(cache, op, coin, possibleOverwrite)];
    if op in cache {
      assert EntryOk(op, cache[op], below);
    }
    if possibleOverwrite || op in cache || op !in below {
      forall x | x in after
        ensures EntryOk(x, after[x], below)
      {
        if x != op {
          assert EntryOk(x, cache[x], below);
        }
      }
    } else {
      assert !EntryOk(op, after[op], below);
    }
  }

  /** How the sum over the view changes when output `op` is set to `coin`. */
  lemma AddSum(h: (OutPoint, Coin) -> int, cache: Cache, below: Utxos, op: OutPoint, coin: Coin)
    ensures var view := Overlay(below, cache);
      Sum(view[op := coin], h) == Sum(view, h) + h(op, coin) - if op in view then h(op, view[op]) else 0
  {
    var view := Overlay(below, cache);
    SumSet(view, h, op, coin);
    if op in view {
      SumRemove(view, h, op);
    } else {
      assert view - {op} == view;
    }
  }

  lemma NothingToSpend(view: Utxos, op: OutPoint)
    requires op !in view
    ensures view - {op} == view
  {
  }

  lemma SpendKeeps(cache: Cache, below: Utxos, op: OutPoint)
    requires LayerOk(cache, below) && op in cache
    ensures var after := if cache[op].isFresh then cache - {op} else cache[op := Entry(EMPTY, true, false)];
      LayerOk(after, below) && Overlay(below, after) == Overlay(below, cache) - {op}
    ensures cache[op].isFresh ==> op !in below
  {
    var after := if cache[op].isFresh then cache - {op} else cache[op := Entry(EMPTY, true, false)];
    assert EntryOk(op, cache[op], below);
    forall x | x in after
      ensures EntryOk(x, after[x], below)
    {
      if x != op {
        assert EntryOk(x, cache[x], below);
      }
    }
  }

  lemma SpendSum(h: (OutPoint, Coin) -> int, view: Utxos, op: OutPoint)
    ensures Sum(view - {op}, h) == Sum(view, h) - if op in view then h(op, view[op]) else 0
  {
    if op in view {
      SumRemove(view, h, op);
    } else {
      assert view - {op} == view;
    }
  }

  lemma UncacheKeeps(cache: Cache, below: Utxos, op: OutPoint)
    requires LayerOk(cache, below) && op in cache && !cache[op].isDirty
    ensures LayerOk(cache - {op}, below) && Overlay(below, cache - {op}) == Overlay(below, cache)
  {
    assert EntryOk(op, cache[op], below);
  }

  lemma EmptyLayer(below: Utxos)
    ensures LayerOk(map[], below) && Overlay(below, map[]) == below
  {
  }

  // ----- the objects -----

  /** What the code takes from elsewhere: the group element of an output, the memory a script occupies, and which scripts
      can never be spent. */
  datatype Params = Params(h: (OutPoint, Coin) -> int, memory: Script -> nat, isUnspendable: Script -> bool)

  ghost function Memory(params: Params): (OutPoint, Entry) -> int {
    (op, e: Entry) => params.memory(e.coin.out.script)
  }

  lemma MemoryAfter(params: Params, cache: Cache, op: OutPoint, e: Entry)
    ensures Sum(cache[op := e], Memory(params)) ==
      Sum(cache, Memory(params)) + params.memory(e.coin.out.script)
      - if op in cache then params.memory(cache[op].coin.out.script) else 0
    ensures Sum(cache - {op}, Memory(params)) ==
      Sum(cache, Memory(params)) - if op in cache then params.memory(cache[op].coin.out.script) else 0
  {
    SumSet(cache, Memory(params), op, e);
    if op in cache {
      SumRemove(cache, Memory(params), op);
    } else {
      assert cache - {op} == cache;
    }
  }

  /** The database at the bottom of a stack. */
  class CoinsDB {
    var coins: Utxos
    var hash: int

    ghost predicate Valid()
      reads this
    {
      forall op :: op in coins ==> !coins[op].IsSpent()
    }

    method GetCoin(op: OutPoint) returns (found: bool, coin: Coin)
      ensures found <==> op in coins
      ensures found ==> coin == coins[op]
    {
      if op in coins {
        return true, coins[op];
      }
      return false, EMPTY;
    }

    method BatchWrite(cache: Cache, newHash: int)
      requires Valid()
      modifies this
      ensures Valid()
      ensures coins == Overlay(old(coins), DirtyPart(cache))
      ensures hash == newHash
    {
      hide Overlay, DirtyPart;
      var todo := cache.Keys;
      WriteStart(coins, cache);
      while todo != {}
        invariant Valid() && todo <= cache.Keys
        invariant coins == Overlay(old(coins), DirtyPart(cache - todo))
        decreases |todo|
      {
        var op :| op in todo;
        var e := cache[op];
        WriteStep(old(coins), cache, todo, op);
        if e.isDirty {
          OverlayOne(coins, op, e);
          if e.coin.IsSpent() {
            coins := coins - {op};
          } else {
            coins := coins[op := e.coin];
          }
        }
        todo := todo - {op};
      }
      assert cache - todo == cache;
      hash := newHash;
    }
  }

  datatype Base = OnDB(db: CoinsDB) | OnCache(cache: CoinsCache)

  /** A cache over a base view. */
  class CoinsCache {
    const params: Params
    const base: Base
    var coins: Cache
    var hash: int
    var usage: int
    ghost const Repr: set<object>

    /** The cache and everything below it are in order. */
    ghost predicate Valid()
      reads this, Repr
      ensures Valid() ==> this in Repr
      decreases Repr, 0
    {
      && this in Repr
      && (match base
          case OnDB(db) => db in Repr && db.Valid() && LayerOk(coins, db.coins)
          case OnCache(c) => c in Repr && c.Repr < Repr && this !in c.Repr && c.params == params && c.Valid()
                             && LayerOk(coins, c.View()))
    }

    /** The set of unspent outputs this view represents. */
    ghost function View(): Utxos
      requires Valid()
      reads this, Repr
      decreases Repr, 1
    {
      match base
      case OnDB(db) => Overlay(db.coins, coins)
      case OnCache(c) => Overlay(c.View(), coins)
    }

    ghost function Below(): Utxos
      requires Valid()
      reads this, Repr
    {
      match base
      case OnDB(db) => db.coins
      case OnCache(c) => c.View()
    }

    ghost function Top(): Layer
      requires Valid()
      reads this, Repr
    {
      Layer(coins, Below())
    }

    /** How far the snapshot hash is off the sum over the unspent outputs. */
    ghost function Drift(): int
      requires Valid()
      reads this, Repr
    {
      hash - Sum(View(), params.h)
    }

    /** From here down to the database, every snapshot hash is exact. */
    ghost predicate HashExact()
      requires Valid()
      reads this, Repr
      decreases Repr
    {
      && Drift() == 0
      && match base
         case OnDB(db) => db.hash == Sum(db.coins, params.h)
         case OnCache(c) => c.HashExact()
    }

    /** The memory counter is exact. */
    ghost predicate UsageExact()
      reads this
    {
      usage == Sum(coins, Memory(params))
    }

    ghost predicate BaseHashExact()
      requires Valid()
      reads this, Repr
    {
      match base
      case OnDB(db) => db.hash == Sum(db.coins, params.h)
      case OnCache(c) => c.HashExact()
    }

    constructor (params: Params, base: Base)
      requires match base
        case OnDB(db) => db.Valid()
        case OnCache(c) => c.Valid() && c.params == params
      ensures Valid() && this.params == params && this.base == base
      ensures fresh(Repr - match base case OnDB(db) => {db as object} case OnCache(c) => c.Repr)
      ensures View() == Below() && UsageExact()
      ensures HashExact() <==> match base
        case OnDB(db) => db.hash == Sum(db.coins, params.h)
        case OnCache(c) => c.HashExact()
    {
      this.params := params;
      this.base := base;
      coins := map[];
      hash := match base case OnDB(db) => db.hash case OnCache(c) => c.hash;
      usage := 0;
      Repr := {this} + match base case OnDB(db) => {db as object} case OnCache(c) => c.Repr;
      new;
      assert LayerOk(coins, Below());
      assert Overlay(Below(), coins) == Below();
    }

    method GetFromBase(op: OutPoint) returns (found: bool, coin: Coin)
      requires Valid()
      modifies Repr - {this}
      ensures Valid() && Below() == old(Below()) && View() == old(View())
      ensures found <==> op in Below()
      ensures found ==> coin == Below()[op] && !coin.IsSpent()
      ensures old(BaseHashExact()) ==> BaseHashExact()
      decreases Repr, 0
    {
      match base
      case OnDB(db) =>
        found, coin := db.GetCoin(op);
      case OnCache(c) =>
        found, coin := c.GetCoin(op);
    }

    /** Looks an output up, filling the cache from the base. */
    method FetchCoin(op: OutPoint) returns (found: bool)
      requires Valid()
      modifies Repr
      ensures Valid() && Below() == old(Below()) && View() == old(View())
      ensures found <==> op in coins
      ensures op in View() ==> found
      ensures Top() == Fetched(old(Top()), op)
      ensures if op in old(coins) || !found then coins == old(coins)
              else op in View() && coins == old(coins)[op := Entry(View()[op], false, false)]
      ensures hash == old(hash)
      ensures old(BaseHashExact()) ==> BaseHashExact()
      ensures old(UsageExact()) ==> UsageExact()
      decreases Repr, 1
    {
      hide Overlay, LayerOk, Sum, Memory;
      OverlayAt(Below(), coins, op);
      if op in coins {
        return true;
      }
      var inBase, coin := GetFromBase(op);
      if !inBase {
        return false;
      }
      // The base never hands out a spent coin, so the entry is not marked FRESH here.
      FetchKeeps(coins, Below(), op, coin);
      MemoryAfter(params, coins, op, Entry(coin, false, false));
      coins := coins[op := Entry(coin, false, false)];
      usage := usage + params.memory(coin.out.script);
      return true;
    }

    method GetCoin(op: OutPoint) returns (found: bool, coin: Coin)
      requires Valid()
      modifies Repr
      ensures Valid() && Below() == old(Below()) && View() == old(View())
      ensures found <==> op in View()
      ensures found ==> coin == View()[op] && !coin.IsSpent()
      ensures Top() == Fetched(old(Top()), op)
      ensures hash == old(hash)
      ensures old(BaseHashExact()) ==> BaseHashExact()
      ensures old(UsageExact()) ==> UsageExact()
      decreases Repr, 2
    {
      var cached := FetchCoin(op);
      if cached {
        return !coins[op].coin.IsSpent(), coins[op].coin;
      }
      return false, EMPTY;
    }

    method HaveCoin(op: OutPoint) returns (have: bool)
      requires Valid()
      modifies Repr
      ensures Valid() && Below() == old(Below()) && View() == old(View())
      ensures have <==> op in View()
      ensures have ==> op in coins
      ensures Top() == Fetched(old(Top()), op)
      ensures hash == old(hash)
      ensures old(BaseHashExact()) ==> BaseHashExact()
      ensures old(UsageExact()) ==> UsageExact()
    {
      var cached := FetchCoin(op);
      have := cached && !coins[op].coin.IsSpent();
    }

    /** Adds an output. `ok` is false when the call throws because an unflagged addition meets an unspent cached output.
        An unflagged addition must not meet an unspent output of the base that is not cached: exactly then the FRESH mark
        is wrong and the cache is no longer in order. */
    method AddCoin(op: OutPoint, coin: Coin, possibleOverwrite: bool) returns (ok: bool)
      requires Valid() && !coin.IsSpent()
      modifies this
      ensures ok <==> params.isUnspendable(coin.out.script) || possibleOverwrite
                      || op !in old(coins) || old(coins)[op].coin.IsSpent()
      ensures params.isUnspendable(coin.out.script) || !ok ==> coins == old(coins) && hash == old(hash)
      ensures ok && !params.isUnspendable(coin.out.script) ==>
                (Valid() <==> possibleOverwrite || op in old(coins) || op !in old(Below()))
      ensures Valid() ==> Below() == old(Below())
      ensures ok && !params.isUnspendable(coin.out.script) ==>
                coins == old(coins)[op := Added(old(coins), op, coin, possibleOverwrite)]
      ensures Valid() && ok && !params.isUnspendable(coin.out.script) ==> View() == old(View())[op := coin]
      ensures Valid() && ok && !params.isUnspendable(coin.out.script) ==>
                Drift() == old(Drift()) + if op in old(View()) && op !in old(coins) then params.h(op, old(View())[op]) else 0
      ensures ok && old(UsageExact()) ==> UsageExact()
      ensures Valid() && old(BaseHashExact()) ==> BaseHashExact()
    {
      hide Overlay, LayerOk, Sum;
      if params.isUnspendable(coin.out.script) {
        return true;
      }
      var inserted := op !in coins;
      var entry := if inserted then Entry(EMPTY, false, false) else coins[op];
      if !inserted {
        usage := usage - params.memory(entry.coin.out.script);
      }
      var markFresh := false;
      if !possibleOverwrite {
        if !entry.coin.IsSpent() {
          return false;
        }
        markFresh := !entry.isDirty;
      }
      AddKeeps(coins, Below(), op, coin, possibleOverwrite);
      OverlayAt(Below(), coins, op);
      AddSum(params.h, coins, Below(), op, coin);
      MemoryAfter(params, coins, op, Entry(coin, true, entry.isFresh || markFresh));
      if !inserted && !entry.coin.IsSpent() {
        hash := hash - params.h(op, entry.coin);
      }
      coins := coins[op := Entry(coin, true, entry.isFresh || markFresh)];
      usage := usage + params.memory(coin.out.script);
      hash := hash + params.h(op, coin);
      return true;
    }

    /** Spends an output. When the cache holds an already spent entry the call still reports success and takes that entry's
        contribution off the snapshot hash; otherwise the hash follows the view. */
    method SpendCoin(op: OutPoint) returns (found: bool, coin: Coin)
      requires Valid()
      modifies Repr
      ensures Valid() && Below() == old(Below()) && View() == old(View()) - {op}
      ensures found <==> op in old(coins) || op in old(View())
      ensures op in old(View()) ==> coin == old(View())[op]
      ensures Top() == SpentIn(Fetched(old(Top()), op), op)
      ensures op in old(Below()) ==> op in coins && coins[op].coin == EMPTY
      ensures Drift() == old(Drift()) -
                if op in old(coins) && old(coins)[op].coin.IsSpent() then params.h(op, old(coins)[op].coin) else 0
      ensures old(UsageExact()) && params.memory(EMPTY.out.script) == 0 ==> UsageExact()
      ensures old(BaseHashExact()) ==> BaseHashExact()
    {
      hide Overlay, LayerOk, Sum;
      OverlayAt(Below(), coins, op);
      found := FetchCoin(op);
      if !found {
        NothingToSpend(View(), op);
        return false, EMPTY;
      }
      var entry := coins[op];
      coin := entry.coin;
      SpendKeeps(coins, Below(), op);
      OverlayAt(Below(), coins, op);
      SpendSum(params.h, View(), op);
      MemoryAfter(params, coins, op, Entry(EMPTY, true, false));
      usage := usage - params.memory(entry.coin.out.script);
      hash := hash - params.h(op, entry.coin);
      if entry.isFresh {
        coins := coins - {op};
      } else {
        coins := coins[op := Entry(EMPTY, true, false)];
      }
    }

    /** Forgets an unmodified entry. */
    method Uncache(op: OutPoint)
      requires Valid()
      modifies this
      ensures Valid() && Below() == old(Below()) && View() == old(View()) && hash == old(hash)
      ensures Top() == Uncached(old(Top()), op)
      ensures op in coins ==> coins[op].isDirty || coins[op].isFresh
      ensures old(UsageExact()) ==> UsageExact()
      ensures old(BaseHashExact()) ==> BaseHashExact()
    {
      hide Overlay, LayerOk, Sum;
      if op in coins && !coins[op].isDirty && !coins[op].isFresh {
        UncacheKeeps(coins, Below(), op);
        MemoryAfter(params, coins, op, coins[op]);
        usage := usage - params.memory(coins[op].coin.out.script);
        coins := coins - {op};
      }
    }

    /** Takes over the modified entries of a child cache. `ok` is false when the call throws because a FRESH entry meets an
        unspent one; with FRESH marks that are right for this view that does not happen. */
    method BatchWrite(cache: Cache, newHash: int) returns (ok: bool)
      requires Valid()
      modifies this
      ensures ok ==> hash == newHash
      ensures FreshOk(cache, old(View())) ==>
                ok && Valid() && Below() == old(Below()) && View() == Overlay(old(View()), DirtyPart(cache))
      ensures FreshOk(cache, old(View())) && old(BaseHashExact()) ==> BaseHashExact()
      ensures ok && old(UsageExact()) ==> UsageExact()
    {
      hide Overlay, LayerOk, Sum, DirtyPart, FreshOk, Memory;
      ghost var below := Below();
      ghost var view := View();
      ghost var good := FreshOk(cache, view);
      var todo := cache.Keys;
      WriteStart(view, cache);
      while todo != {}
        invariant todo <= cache.Keys
        invariant good ==> LayerOk(coins, below) && Overlay(below, coins) == Overlay(view, DirtyPart(cache - todo))
        invariant old(UsageExact()) ==> UsageExact()
        decreases |todo|
      {
        var op :| op in todo;
        var e := cache[op];
        WriteStep(view, cache, todo, op);
        if e.isDirty {
          if good {
            AbsorbStep(coins, below, op, e);
          }
          ok := AbsorbEntry(op, e);
          if !ok {
            return;
          }
        }
        todo := todo - {op};
      }
      assert cache - todo == cache;
      hash := newHash;
      ok := true;
    }

    /** One entry of a batch. */
    method AbsorbEntry(op: OutPoint, e: Entry) returns (ok: bool)
      modifies this`coins, this`usage
      ensures ok <==> !(op in old(coins) && e.isFresh && !old(coins)[op].coin.IsSpent())
      ensures ok ==> coins == Absorb(old(coins), op, e)
      ensures ok && old(UsageExact()) ==> UsageExact()
    {
      hide Sum, Memory;
      MemoryAfter(params, coins, op, Entry(e.coin, true, e.isFresh));
      if op !in coins {
        if !(e.isFresh && e.coin.IsSpent()) {
          coins := coins[op := Entry(e.coin, true, e.isFresh)];
          usage := usage + params.memory(e.coin.out.script);
        }
      } else {
        if e.isFresh && !coins[op].coin.IsSpent() {
          return false;
        }
        MemoryAfter(params, coins, op, Entry(e.coin, true, coins[op].isFresh));
        if coins[op].isFresh && e.coin.IsSpent() {
          usage := usage - params.memory(coins[op].coin.out.script);
          coins := coins - {op};
        } else {
          usage := usage - params.memory(coins[op].coin.out.script);
          coins := coins[op := Entry(e.coin, true, coins[op].isFresh)];
          usage := usage + params.memory(e.coin.out.script);
        }
      }
      return true;
    }

    /** Writes all modifications to the base: nothing changes through this view, the base view catches up with it, and the
        FRESH check of the base never fires. */
    method Flush() returns (ok: bool)
      requires Valid()
      modifies Repr
      ensures ok && Valid() && coins == map[]
      ensures View() == old(View()) && Below() == old(View()) && hash == old(hash)
      ensures old(HashExact()) ==> HashExact()
      ensures UsageExact()
    {
      hide Overlay, LayerOk, DirtyPart, FreshOk;
      LayerGivesFresh(coins, Below());
      match base {
        case OnDB(db) =>
          db.BatchWrite(coins, hash);
          ok := true;
        case OnCache(c) =>
          assert HashExact() ==> c.HashExact();
          assert c.HashExact() ==> c.BaseHashExact();
          ok := c.BatchWrite(coins, hash);
          assert old(HashExact()) ==> c.HashExact();
      }
      coins := map[];
      usage := 0;
      EmptyLayer(old(View()));
    }
  }

  /** Spending an output of the base twice: the second call reports success although nothing is left to spend, and leaves
      the snapshot hash off by the contribution of a cleared coin. */
  method SpendTwice(cache: CoinsCache, op: OutPoint) returns (first: bool, second: bool)
    requires cache.Valid() && op in cache.Below() && op in cache.View()
    modifies cache.Repr
    ensures cache.Valid() && first && second && op !in cache.View()
    ensures cache.Drift() == old(cache.Drift()) - cache.params.h(op, EMPTY)
  {
    hide Overlay, LayerOk, Sum, Memory;
    OverlayAt(cache.Below(), cache.coins, op);
    var coin: Coin;
    first, coin := cache.SpendCoin(op);
    second, coin := cache.SpendCoin(op);
  }

  // ----- a transaction's outputs -----

  function OutputCoin(outs: seq<TxOut>, i: nat, height: int, txType: int): Coin
    requires i < |outs|
  {
    Coin(outs[i], height, txType)
  }

  /** A plain set with the first `n` outputs of a transaction added, unspendable ones excepted. */
  function WithOutputs(params: Params, view: Utxos, txid: nat, outs: seq<TxOut>, n: nat, height: int, txType: int): Utxos
    requires n <= |outs|
  {
    if n == 0 then view
    else
      var rest := WithOutputs(params, view, txid, outs, n - 1, height, txType);
      if params.isUnspendable(outs[n - 1].script) then rest
      else rest[OutPoint(txid, n - 1) := OutputCoin(outs, n - 1, height, txType)]
  }

  lemma {:induction false} LaterOutputsUntouched(params: Params, view: Utxos, txid: nat, outs: seq<TxOut>, n: nat, height: int,
                                                 txType: int, i: nat)
    requires n <= i < |outs|
    ensures OutPoint(txid, i) in WithOutputs(params, view, txid, outs, n, height, txType) <==> OutPoint(txid, i) in view
  {
    if n > 0 {
      LaterOutputsUntouched(params, view, txid, outs, n - 1, height, txType, i);
    }
  }

  /** Adds all outputs of a transaction. With `check` the view is asked whether each addition overwrites; without it only
      coinbase outputs may overwrite. The snapshot hash stays exact whenever the view is asked or nothing is overwritten. */
  method AddCoins(cache: CoinsCache, txid: nat, outs: seq<TxOut>, height: int, txType: int, isCoinBase: bool, check: bool)
      returns (ok: bool)
    requires cache.Valid()
    requires forall i :: 0 <= i < |outs| ==> outs[i].value != -1
    requires check || isCoinBase || forall i: nat :: i < |outs| ==> OutPoint(txid, i) !in cache.View()
    modifies cache.Repr
    ensures ok && cache.Valid()
    ensures cache.View() == WithOutputs(cache.params, old(cache.View()), txid, outs, |outs|, height, txType)
    ensures check || (forall i: nat :: i < |outs| ==> OutPoint(txid, i) !in old(cache.View())) ==>
              cache.Drift() == old(cache.Drift())
    ensures old(cache.BaseHashExact()) ==> cache.BaseHashExact()
    ensures old(cache.UsageExact()) ==> cache.UsageExact()
  {
    hide Overlay, LayerOk, Sum, Memory;
    ok := true;
    for i := 0 to |outs|
      invariant ok && cache.Valid()
      invariant cache.View() == WithOutputs(cache.params, old(cache.View()), txid, outs, i, height, txType)
      invariant check || (forall j: nat :: j < |outs| ==> OutPoint(txid, j) !in old(cache.View())) ==>
                  cache.Drift() == old(cache.Drift())
      invariant old(cache.BaseHashExact()) ==> cache.BaseHashExact()
      invariant old(cache.UsageExact()) ==> cache.UsageExact()
    {
      var op := OutPoint(txid, i);
      var overwrite := isCoinBase;
      LaterOutputsUntouched(cache.params, old(cache.View()), txid, outs, i, height, txType, i);
      if check {
        overwrite := cache.HaveCoin(op);
      }
      OverlayAt(cache.Below(), cache.coins, op);
      ok := cache.AddCoin(op, OutputCoin(outs, i, height, txType), overwrite);
    }
  }

  // ----- whole runs -----

  datatype Op =
    | Add(op: OutPoint, coin: Coin, possibleOverwrite: bool)
    | AddChecked(op: OutPoint, coin: Coin)
    | Spend(op: OutPoint)
    | Lookup(op: OutPoint)
    | Uncache(op: OutPoint)
    | Flush

  /** The same call on one plain set of unspent outputs. */
  function Plain(params: Params, view: Utxos, o: Op): Utxos {
    match o
    case Add(op, coin, _) => if params.isUnspendable(coin.out.script) then view else view[op := coin]
    case AddChecked(op, coin) => if params.isUnspendable(coin.out.script) then view else view[op := coin]
    case Spend(op) => view - {op}
    case Lookup(_) => view
    case Uncache(_) => view
    case Flush => view
  }

  function PlainAll(params: Params, view: Utxos, ops: seq<Op>): Utxos {
    if ops == [] then view else Plain(params, PlainAll(params, view, ops[..|ops| - 1]), ops[|ops| - 1])
  }

  /** The caller's duty: additions are of unspent coins, and one that may overwrite says so. */
  predicate Proper(params: Params, view: Utxos, o: Op) {
    match o
    case Add(op, coin, ow) => !coin.IsSpent() && (ow || op !in view || params.isUnspendable(coin.out.script))
    case AddChecked(op, coin) => !coin.IsSpent()
    case _ => true
  }

  /** What each call does to the top layer of a stack. */
  function Stepped(params: Params, l: Layer, o: Op): Layer {
    match o
    case Add(op, coin, ow) => WithAdded(params, l, op, coin, ow)
    case AddChecked(op, coin) =>
      var f := Fetched(l, op);
      WithAdded(params, f, op, coin, op in f.coins && !f.coins[op].coin.IsSpent())
    case Spend(op) => SpentIn(Fetched(l, op), op)
    case Lookup(op) => Fetched(l, op)
    case Uncache(op) => Uncached(l, op)
    case Flush => Layer(map[], Overlay(l.below, l.coins))
  }

  function WithAdded(params: Params, l: Layer, op: OutPoint, coin: Coin, possibleOverwrite: bool): Layer {
    if params.isUnspendable(coin.out.script) then l
    else l.(coins := l.coins[op := Added(l.coins, op, coin, possibleOverwrite)])
  }

  function SteppedAll(params: Params, l: Layer, ops: seq<Op>): Layer {
    if ops == [] then l else Stepped(params, SteppedAll(params, l, ops[..|ops| - 1]), ops[|ops| - 1])
  }

  /** How far each call moves the snapshot hash away from the sum over the view: a blind addition forgets an output that it
      overwrites without having it cached, and a spend takes off an entry that is already spent. */
  function Moved(params: Params, l: Layer, o: Op): int {
    match o
    case Add(op, coin, _) =>
      if op in l.coins || op !in l.below || params.isUnspendable(coin.out.script) then 0 else params.h(op, l.below[op])
    case Spend(op) => if op in l.coins && l.coins[op].coin.IsSpent() then -params.h(op, l.coins[op].coin) else 0
    case _ => 0
  }

  function MovedAll(params: Params, l: Layer, ops: seq<Op>): int {
    if ops == [] then 0
    else
      var n := |ops| - 1;
      MovedAll(params, l, ops[..n]) + Moved(params, SteppedAll(params, l, ops[..n]), ops[n])
  }

  /** The further duty for the snapshot hash: a blind addition overwrites only what is cached, and a spend does not hit an
      entry that is already spent. */
  predicate HashProper(params: Params, l: Layer, o: Op) {
    match o
    case Add(op, coin, _) => op in l.coins || op !in l.below || params.isUnspendable(coin.out.script)
    case Spend(op) => !(op in l.coins && l.coins[op].coin.IsSpent())
    case _ => true
  }

  ghost predicate AllProper(params: Params, view: Utxos, ops: seq<Op>) {
    forall i :: 0 <= i < |ops| ==> Proper(params, PlainAll(params, view, ops[..i]), ops[i])
  }

  ghost predicate AllHashProper(params: Params, l: Layer, ops: seq<Op>) {
    forall i :: 0 <= i < |ops| ==> HashProper(params, SteppedAll(params, l, ops[..i]), ops[i])
  }

  /** Runs that meet the duty move no hash. */
  lemma {:induction false} ProperMovesNothing(params: Params, l: Layer, ops: seq<Op>)
    requires AllHashProper(params, l, ops)
    ensures MovedAll(params, l, ops) == 0
    decreases |ops|
  {
    hide SteppedAll;
    if ops != [] {
      var n := |ops| - 1;
      assert HashProper(params, SteppedAll(params, l, ops[..n]), ops[n]);
      forall i | 0 <= i < n
        ensures HashProper(params, SteppedAll(params, l, ops[..n][..i]), ops[..n][i])
      {
        assert ops[..n][..i] == ops[..i];
      }
      ProperMovesNothing(params, l, ops[..n]);
    }
  }

  /** The hash is exact whenever the run flushes. */
  ghost predicate FlushesExact(params: Params, l: Layer, drift: int, ops: seq<Op>) {
    forall i :: 0 <= i < |ops| && ops[i] == Flush ==> drift + MovedAll(params, l, ops[..i]) == 0
  }

  lemma ProperFlushes(params: Params, l: Layer, ops: seq<Op>)
    requires AllHashProper(params, l, ops)
    ensures FlushesExact(params, l, 0, ops)
  {
    hide SteppedAll, MovedAll;
    forall i | 0 <= i < |ops|
      ensures MovedAll(params, l, ops[..i]) == 0
    {
      forall j | 0 <= j < i
        ensures HashProper(params, SteppedAll(params, l, ops[..i][..j]), ops[..i][j])
      {
        assert ops[..i][..j] == ops[..j];
      }
      ProperMovesNothing(params, l, ops[..i]);
    }
  }

  /** One call on the top of a stack: the view changes as a plain set would, the top layer changes as stated, and the
      distance of the snapshot hash from the sum over the view changes by exactly the stated amount. */
  method Execute(cache: CoinsCache, o: Op)
    requires cache.Valid() && Proper(cache.params, cache.View(), o)
    modifies cache.Repr
    ensures cache.Valid() && cache.View() == Plain(cache.params, old(cache.View()), o)
    ensures cache.Top() == Stepped(cache.params, old(cache.Top()), o)
    ensures cache.Drift() == old(cache.Drift()) + Moved(cache.params, old(cache.Top()), o)
    ensures old(cache.BaseHashExact()) && (o == Flush ==> old(cache.Drift()) == 0) ==> cache.BaseHashExact()
  {
    hide Overlay, LayerOk, Sum, Memory;
    match o
    case Add(op, coin, ow) =>
      OverlayAt(cache.Below(), cache.coins, op);
      var _ := cache.AddCoin(op, coin, ow);
    case AddChecked(op, coin) =>
      var have := cache.HaveCoin(op);
      OverlayAt(cache.Below(), cache.coins, op);
      var _ := cache.AddCoin(op, coin, have);
    case Spend(op) =>
      OverlayAt(cache.Below(), cache.coins, op);
      var _, _ := cache.SpendCoin(op);
    case Lookup(op) =>
      var _, _ := cache.GetCoin(op);
    case Uncache(op) =>
      cache.Uncache(op);
    case Flush =>
      ViewIsOverlay(cache);
      var _ := cache.Flush();
  }

  lemma ViewIsOverlay(cache: CoinsCache)
    requires cache.Valid()
    ensures cache.View() == Overlay(cache.Below(), cache.coins)
    ensures cache.HashExact() <==> cache.Drift() == 0 && cache.BaseHashExact()
  {
  }

  /** Every run on the top of a stack of any depth acts like the same run on one plain set. The snapshot hash is off by
      exactly the sum of what the single calls move it; it stays exact at every depth if no blind addition overwrites an
      output that is not cached and no spend hits an entry already spent. */
  method Run(cache: CoinsCache, ops: seq<Op>)
    requires cache.Valid() && AllProper(cache.params, cache.View(), ops)
    modifies cache.Repr
    ensures cache.Valid() && cache.View() == PlainAll(cache.params, old(cache.View()), ops)
    ensures cache.Top() == SteppedAll(cache.params, old(cache.Top()), ops)
    ensures cache.Drift() == old(cache.Drift()) + MovedAll(cache.params, old(cache.Top()), ops)
    ensures old(cache.BaseHashExact()) && FlushesExact(cache.params, old(cache.Top()), old(cache.Drift()), ops) ==>
              cache.BaseHashExact()
    ensures old(cache.HashExact()) && AllHashProper(cache.params, old(cache.Top()), ops) ==> cache.HashExact()
  {
    hide Stepped, Moved, Overlay, Plain, Proper, HashProper, Sum;
    ghost var l, drift := cache.Top(), cache.Drift();
    ViewIsOverlay(cache);
    assert ops[..0] == [];
    for i := 0 to |ops|
      invariant cache.Valid() && cache.View() == PlainAll(cache.params, old(cache.View()), ops[..i])
      invariant cache.Top() == SteppedAll(cache.params, l, ops[..i])
      invariant cache.Drift() == drift + MovedAll(cache.params, l, ops[..i])
      invariant old(cache.BaseHashExact()) && FlushesExact(cache.params, l, drift, ops) ==> cache.BaseHashExact()
    {
      Execute(cache, ops[i]);
      assert ops[..i + 1][..i] == ops[..i];
    }
    assert ops[..|ops|] == ops;
    ViewIsOverlay(cache);
    if old(cache.HashExact()) && AllHashProper(cache.params, l, ops) {
      ProperMovesNothing(cache.params, l, ops);
      ProperFlushes(cache.params, l, ops);
    }
  }
}

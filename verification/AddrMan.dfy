/**
  The stochastic address manager: a table of known peer addresses kept in five redundant structures (the entry map, the
  address index, the randomly ordered id list, the "new" buckets with reference counts and the "tried" buckets), plus the
  set of pending tried-table collisions.

  Bucket hashes are function-valued parameters, the clock is an argument and every random draw is an argument or an arbitrary
  choice, so each contract holds for every hash, every time and every draw.
 */
module AddressManager {

  import opened Numbers

  const TRIED_BUCKET_COUNT: int := 256
  const NEW_BUCKET_COUNT: int := 1024
  const BUCKET_SIZE: int := 64
  const NEW_BUCKETS_PER_ADDRESS: int := 8
  const HORIZON_DAYS: int := 30
  const RETRIES: int := 3
  const MAX_FAILURES: int := 10
  const MIN_FAIL_DAYS: int := 7
  const REPLACEMENT_HOURS: int := 4
  const GETADDR_MAX_PCT: int := 23
  const GETADDR_MAX: int := 2500
  const SET_TRIED_COLLISION_SIZE: int := 10

  /** A network address without port: the key of the address index. */
  type NetAddr = int

  datatype Service = Service(ip: NetAddr, port: int)

  datatype Address = Address(service: Service, services: bv64, time: int)

  datatype Info = Info(
    address: Address, source: NetAddr,
    lastTry: int, lastCountAttempt: int, lastSuccess: int, attempts: int,
    refCount: int, inTried: bool, randomPos: int)

  /** The keyed hashes behind bucket selection, before their final reduction. */
  datatype Hashing = Hashing(
    tried: (int, Service) -> nat,
    unseen: (int, NetAddr, NetAddr) -> nat,
    position: (int, bool, int, Service) -> nat)

  function TriedBucket(h: Hashing, key: int, s: Service): (b: int)
    ensures 0 <= b < TRIED_BUCKET_COUNT
  {
    h.tried(key, s) % TRIED_BUCKET_COUNT
  }

  function NewBucket(h: Hashing, key: int, s: Service, source: NetAddr): (b: int)
    ensures 0 <= b < NEW_BUCKET_COUNT
  {
    h.unseen(key, s.ip, source) % NEW_BUCKET_COUNT
  }

  function Position(h: Hashing, key: int, fNew: bool, bucket: int, s: Service): (p: int)
    ensures 0 <= p < BUCKET_SIZE
  {
    h.position(key, fNew, bucket, s) % BUCKET_SIZE
  }

  predicate IsTerrible(info: Info, now: int) {
    if info.lastTry != 0 && info.lastTry >= now - 60 then false
    else if info.address.time > now + 10 * 60 then true
    else if info.address.time == 0 || now - info.address.time > HORIZON_DAYS * 24 * 60 * 60 then true
    else if info.lastSuccess == 0 && info.attempts >= RETRIES then true
    else now - info.lastSuccess > MIN_FAIL_DAYS * 24 * 60 * 60 && info.attempts >= MAX_FAILURES
  }

  function Max(a: int, b: int): int {
    if a < b then b else a
  }

  // ----- the abstract state and its invariant (the numbers are the codes of the source's own consistency check) -----

  datatype Option<T> = None | Some(value: T)

  type Slot = (int, int)

  /** The occupied slots of a bucket table. */
  type Table = map<Slot, int>

  datatype Model = Model(
    hashing: Hashing, key: int,
    infos: map<int, Info>, byAddr: map<NetAddr, int>, order: seq<int>, idCount: int,
    nNew: int, nTried: int, newT: Table, triedT: Table)

  function TriedSlot(h: Hashing, key: int, s: Service): Slot {
    (TriedBucket(h, key, s), Position(h, key, false, TriedBucket(h, key, s), s))
  }

  function NewSlot(h: Hashing, key: int, bucket: int, s: Service): Slot {
    (bucket, Position(h, key, true, bucket, s))
  }

  ghost function SlotsOf(t: Table, id: int): set<Slot> {
    set s | s in t && t[s] == id
  }

  ghost function TriedIds(infos: map<int, Info>): set<int> {
    set id | id in infos && infos[id].inTried
  }

  ghost function NewIds(infos: map<int, Info>): set<int> {
    set id | id in infos && !infos[id].inTried
  }

  /** The address index is the inverse of the entry map (-5). */
  ghost predicate AddrOk(infos: map<int, Info>, byAddr: map<NetAddr, int>) {
    && (forall id :: id in infos ==>
          infos[id].address.service.ip in byAddr && byAddr[infos[id].address.service.ip] == id)
    && (forall a :: a in byAddr ==> byAddr[a] in infos && infos[byAddr[a]].address.service.ip == a)
  }

  /** The random list is a permutation of the ids and `randomPos` is its inverse (-14). */
  ghost predicate OrderOk(infos: map<int, Info>, order: seq<int>) {
    && |order| == |infos|
    && (forall id :: id in infos ==> 0 <= infos[id].randomPos < |order| && order[infos[id].randomPos] == id)
    && (forall i :: 0 <= i < |order| ==> order[i] in infos && infos[order[i]].randomPos == i)
  }

  ghost predicate IdsOk(infos: map<int, Info>, idCount: int) {
    0 <= idCount && forall id :: id in infos ==> 0 <= id < idCount
  }

  /** Both counters are exact (-7, -9, -10); `uncounted` entries are in transit between the tables. */
  ghost predicate CountsOk(infos: map<int, Info>, nNew: int, nTried: int, uncounted: set<int>) {
    && nTried == |TriedIds(infos)|
    && nNew == |NewIds(infos) - uncounted|
    && uncounted <= NewIds(infos)
  }

  /** Every new slot holds an untried entry at that entry's position in the bucket (-12, -19). */
  ghost predicate NewSlotsOk(h: Hashing, key: int, infos: map<int, Info>, t: Table) {
    forall s :: s in t ==>
      && 0 <= s.0 < NEW_BUCKET_COUNT
      && t[s] in infos
      && !infos[t[s]].inTried
      && s == NewSlot(h, key, s.0, infos[t[s]].address.service)
  }

  /** Reference counts are exact, at most 8, and positive for untried entries not in `pending` (-2, -3, -4, -15). */
  ghost predicate RefsOk(infos: map<int, Info>, t: Table, pending: set<int>) {
    forall id :: id in infos ==>
      && infos[id].refCount == |SlotsOf(t, id)| <= NEW_BUCKETS_PER_ADDRESS
      && (infos[id].inTried || id in pending || infos[id].refCount > 0)
  }

  /** Tried slots hold exactly the tried entries, each in its own slot (-11, -13, -17, -18). */
  ghost predicate TriedOk(h: Hashing, key: int, infos: map<int, Info>, t: Table) {
    && (forall s :: s in t ==>
          t[s] in infos && infos[t[s]].inTried && s == TriedSlot(h, key, infos[t[s]].address.service))
    && (forall id :: id in infos && infos[id].inTried ==>
          TriedSlot(h, key, infos[id].address.service) in t && t[TriedSlot(h, key, infos[id].address.service)] == id)
  }

  ghost predicate Consistent(m: Model, pending: set<int>, uncounted: set<int>) {
    && IdsOk(m.infos, m.idCount)
    && AddrOk(m.infos, m.byAddr)
    && OrderOk(m.infos, m.order)
    && CountsOk(m.infos, m.nNew, m.nTried, uncounted)
    && NewSlotsOk(m.hashing, m.key, m.infos, m.newT)
    && RefsOk(m.infos, m.newT, pending)
    && TriedOk(m.hashing, m.key, m.infos, m.triedT)
  }

  /** Every recorded collision that still has an entry faces an occupied tried slot. */
  ghost predicate CollisionsOk(m: Model, collisions: set<int>) {
    && |collisions| <= SET_TRIED_COLLISION_SIZE
    && (forall id :: id in collisions ==> 0 <= id < m.idCount)
    && (forall id :: id in collisions && id in m.infos ==>
          TriedSlot(m.hashing, m.key, m.infos[id].address.service) in m.triedT)
  }

  /** Times are not negative and a tried entry has succeeded once (-1, -6, -8). */
  ghost predicate TimesOk(infos: map<int, Info>) {
    forall id :: id in infos ==>
      && infos[id].lastTry >= 0
      && infos[id].lastSuccess >= 0
      && (infos[id].inTried ==> infos[id].lastSuccess != 0)
  }

  // ----- how two entry maps may differ -----

  /** Equal up to the position in the random list. */
  predicate SameButPos(a: Info, b: Info) {
    a.(randomPos := 0) == b.(randomPos := 0)
  }

  /** The fields that the tables depend on are equal. */
  predicate SameStructure(a: Info, b: Info) {
    a.address.service == b.address.service && a.refCount == b.refCount && a.inTried == b.inTried
    && a.randomPos == b.randomPos
  }

  ghost predicate SameInfosButPos(a: map<int, Info>, b: map<int, Info>) {
    a.Keys == b.Keys && forall id :: id in a ==> SameButPos(a[id], b[id])
  }

  /** What emptying a slot that held `victim` does to the entries: nothing if the slot was empty; otherwise the victim
      loses one reference, and its entry with the last one. No other entry changes. */
  ghost predicate Cleared(t: Table, s: Slot, before: map<int, Info>, after: map<int, Info>,
                          addrBefore: map<NetAddr, int>, addrAfter: map<NetAddr, int>)
  {
    if s !in t then
      before == after && addrBefore == addrAfter
    else
      var victim := t[s];
      && victim in before
      && after.Keys == (if before[victim].refCount == 1 then before.Keys - {victim} else before.Keys)
      && addrAfter == (if before[victim].refCount == 1 then addrBefore - {before[victim].address.service.ip} else addrBefore)
      && (forall id :: id in after ==>
            SameButPos(after[id], if id == victim then before[id].(refCount := before[id].refCount - 1) else before[id]))
  }

  /** The new slot an entry returns to when it is evicted from the tried table. */
  function HomeSlot(h: Hashing, key: int, info: Info): Slot {
    NewSlot(h, key, NewBucket(h, key, info.address.service, info.source), info.address.service)
  }

  /** Freeing the tried slot `s`: its occupant, if any, goes back to its home slot in the new table as its only reference,
      displacing whatever was there; nothing else changes. */
  ghost predicate Evicted(before: Model, after: Model, s: Slot) {
    if s !in before.triedT then
      after == before
    else
      var e := before.triedT[s];
      e in before.infos &&
      var home := HomeSlot(before.hashing, before.key, before.infos[e]);
      var freed := before.infos[e := before.infos[e].(inTried := false)];
      && after.triedT == before.triedT - {s}
      && after.newT == before.newT[home := e]
      && e in after.infos
      && SameButPos(after.infos[e], before.infos[e].(inTried := false, refCount := 1))
      && Cleared(before.newT, home, freed, after.infos[e := after.infos[e].(refCount := freed[e].refCount)],
                 before.byAddr, after.byAddr)
  }

  /** The untried entry `id` taken out of all its new slots. */
  ghost function Removed(m: Model, id: int): Model
    requires id in m.infos
  {
    m.(infos := m.infos[id := m.infos[id].(refCount := 0)], newT := m.newT - SlotsOf(m.newT, id), nNew := m.nNew - 1)
  }

  /** Moving the untried entry `id` to its tried slot: it leaves the new table, the occupant of the slot is evicted to its
      home slot in the new table, and `id` takes the slot. */
  ghost predicate MadeTried(before: Model, after: Model, id: int) {
    && id in before.infos && id in after.infos
    && SameButPos(after.infos[id], before.infos[id].(refCount := 0, inTried := true))
    && var s := TriedSlot(before.hashing, before.key, before.infos[id].address.service);
    && after.triedT == before.triedT[s := id]
    && Evicted(Removed(before, id),
               after.(infos := after.infos[id := after.infos[id].(inTried := false)], triedT := before.triedT - {s},
                      nTried := after.nTried - 1), s)
  }

  // ----- each elementary step keeps the invariant -----

  lemma MapSize<K, V>(m: map<K, V>)
    ensures |m| == |m.Keys|
  {
  }

  function SwapInfos(infos: map<int, Info>, order: seq<int>, i: int, j: int): map<int, Info>
    requires 0 <= i < |order| && 0 <= j < |order| && order[i] in infos && order[j] in infos
  {
    infos[order[i] := infos[order[i]].(randomPos := j)][order[j] := infos[order[j]].(randomPos := i)]
  }

  lemma SwapOrder(infos: map<int, Info>, order: seq<int>, i: int, j: int)
    requires OrderOk(infos, order) && 0 <= i < |order| && 0 <= j < |order| && i != j
    ensures OrderOk(SwapInfos(infos, order, i, j), order[i := order[j]][j := order[i]])
  {
    var swapped := SwapInfos(infos, order, i, j);
    assert order[i] != order[j];
    assert swapped.Keys == infos.Keys;
    MapSize(swapped);
    MapSize(infos);
  }

  lemma PopOrder(infos: map<int, Info>, order: seq<int>, id: int)
    requires OrderOk(infos, order) && id in infos && infos[id].randomPos == |order| - 1
    ensures OrderOk(infos - {id}, order[..|order| - 1])
  {
    var rest := infos - {id};
    assert rest.Keys == infos.Keys - {id};
    MapSize(rest);
    MapSize(infos);
    forall i | 0 <= i < |order| - 1
      ensures order[i] in rest && rest[order[i]].randomPos == i
    {
      assert infos[order[i]].randomPos == i;
    }
  }

  lemma PushOrder(infos: map<int, Info>, order: seq<int>, id: int, info: Info)
    requires OrderOk(infos, order) && id !in infos && info.randomPos == |order|
    ensures OrderOk(infos[id := info], order + [id])
  {
    var more := infos[id := info];
    assert more.Keys == infos.Keys + {id};
    MapSize(more);
    MapSize(infos);
    forall i | 0 <= i < |order| + 1
      ensures (order + [id])[i] in more && more[(order + [id])[i]].randomPos == i
    {
    }
  }

  /** The parts that see neither positions nor reference counts depend only on addresses and on which ids are tried. */
  ghost predicate SameTables(a: map<int, Info>, b: map<int, Info>) {
    a.Keys == b.Keys
    && forall id :: id in a ==> a[id].address.service == b[id].address.service && a[id].inTried == b[id].inTried
  }

  lemma AddrFrame(a: map<int, Info>, b: map<int, Info>, byAddr: map<NetAddr, int>)
    requires AddrOk(a, byAddr)
    requires a.Keys == b.Keys && forall id :: id in a ==> a[id].address.service == b[id].address.service
    ensures AddrOk(b, byAddr)
  {
  }

  lemma OrderFrame(a: map<int, Info>, b: map<int, Info>, order: seq<int>)
    requires OrderOk(a, order) && a.Keys == b.Keys && forall id :: id in a ==> a[id].randomPos == b[id].randomPos
    ensures OrderOk(b, order)
  {
    MapSize(a);
    MapSize(b);
  }

  lemma IdSetsFrame(a: map<int, Info>, b: map<int, Info>)
    requires SameTables(a, b)
    ensures TriedIds(b) == TriedIds(a) && NewIds(b) == NewIds(a)
  {
    forall id
      ensures id in TriedIds(b) <==> id in TriedIds(a)
      ensures id in NewIds(b) <==> id in NewIds(a)
    {
      assert id in a.Keys <==> id in b.Keys;
    }
  }

  lemma NewFrame(h: Hashing, key: int, a: map<int, Info>, b: map<int, Info>, t: Table)
    requires NewSlotsOk(h, key, a, t) && SameTables(a, b)
    ensures NewSlotsOk(h, key, b, t)
  {
    forall s | s in t
      ensures t[s] in b && !b[t[s]].inTried && s == NewSlot(h, key, s.0, b[t[s]].address.service)
    {
      var id := t[s];
      assert id in a.Keys;
      assert a[id].inTried == b[id].inTried;
    }
  }

  lemma TriedFrame(h: Hashing, key: int, a: map<int, Info>, b: map<int, Info>, t: Table)
    requires TriedOk(h, key, a, t) && SameTables(a, b)
    ensures TriedOk(h, key, b, t)
  {
    forall s | s in t
      ensures t[s] in b && b[t[s]].inTried && s == TriedSlot(h, key, b[t[s]].address.service)
    {
      var id := t[s];
      assert id in a.Keys;
      assert a[id].inTried == b[id].inTried;
    }
    forall id | id in b && b[id].inTried
      ensures TriedSlot(h, key, b[id].address.service) in t && t[TriedSlot(h, key, b[id].address.service)] == id
    {
      assert id in a.Keys;
      assert a[id].inTried == b[id].inTried;
    }
  }

  lemma TablesFrame(h: Hashing, key: int, a: map<int, Info>, b: map<int, Info>, newT: Table, triedT: Table)
    requires NewSlotsOk(h, key, a, newT) && TriedOk(h, key, a, triedT) && SameTables(a, b)
    ensures NewSlotsOk(h, key, b, newT) && TriedOk(h, key, b, triedT)
    ensures TriedIds(b) == TriedIds(a) && NewIds(b) == NewIds(a)
  {
    IdSetsFrame(a, b);
    NewFrame(h, key, a, b, newT);
    TriedFrame(h, key, a, b, triedT);
  }

  lemma RefsFrame(a: map<int, Info>, b: map<int, Info>, t: Table, pending: set<int>)
    requires RefsOk(a, t, pending) && SameTables(a, b) && forall id :: id in a ==> a[id].refCount == b[id].refCount
    ensures RefsOk(b, t, pending)
  {
  }

  /** Moving entries in the random list, or updating times and counters, keeps the structure. */
  lemma TouchKeeps(m: Model, n: Model, pending: set<int>, uncounted: set<int>)
    requires Consistent(m, pending, uncounted)
    requires n == m.(infos := n.infos, order := n.order)
    requires SameTables(m.infos, n.infos) && forall id :: id in m.infos ==> m.infos[id].refCount == n.infos[id].refCount
    requires OrderOk(n.infos, n.order)
    ensures Consistent(n, pending, uncounted)
  {
    AddrFrame(m.infos, n.infos, m.byAddr);
    TablesFrame(m.hashing, m.key, m.infos, n.infos, m.newT, m.triedT);
    RefsFrame(m.infos, n.infos, m.newT, pending);
  }

  lemma CreateKeeps(m: Model, info: Info)
    requires Consistent(m, {}, {})
    requires info.address.service.ip !in m.byAddr
    requires info.refCount == 0 && !info.inTried && info.randomPos == |m.order|
    ensures var id := m.idCount;
      Consistent(m.(infos := m.infos[id := info], byAddr := m.byAddr[info.address.service.ip := id],
                    order := m.order + [id], idCount := id + 1), {id}, {id})
  {
    var id := m.idCount;
    var infos := m.infos[id := info];
    PushOrder(m.infos, m.order, id, info);
    AddrGrow(m.infos, m.byAddr, id, info);
    TablesGrow(m.hashing, m.key, m.infos, id, info, m.newT, m.triedT, {});
    assert NewIds(infos) - {id} == NewIds(m.infos) - {};
  }

  lemma AddrGrow(infos: map<int, Info>, byAddr: map<NetAddr, int>, id: int, info: Info)
    requires AddrOk(infos, byAddr) && id !in infos && info.address.service.ip !in byAddr
    ensures AddrOk(infos[id := info], byAddr[info.address.service.ip := id])
  {
  }

  lemma TablesGrow(h: Hashing, key: int, infos: map<int, Info>, id: int, info: Info, newT: Table, triedT: Table,
                   pending: set<int>)
    requires NewSlotsOk(h, key, infos, newT) && TriedOk(h, key, infos, triedT) && RefsOk(infos, newT, pending)
    requires id !in infos && !info.inTried && info.refCount == 0
    ensures var more := infos[id := info];
      && NewSlotsOk(h, key, more, newT) && TriedOk(h, key, more, triedT) && RefsOk(more, newT, pending + {id})
      && TriedIds(more) == TriedIds(infos) && NewIds(more) == NewIds(infos) + {id}
  {
    assert SlotsOf(newT, id) == {};
  }

  lemma AddrShrink(infos: map<int, Info>, byAddr: map<NetAddr, int>, id: int)
    requires AddrOk(infos, byAddr) && id in infos
    ensures AddrOk(infos - {id}, byAddr - {infos[id].address.service.ip})
  {
  }

  lemma TablesShrink(h: Hashing, key: int, infos: map<int, Info>, id: int, newT: Table, triedT: Table, pending: set<int>)
    requires NewSlotsOk(h, key, infos, newT) && TriedOk(h, key, infos, triedT) && RefsOk(infos, newT, pending)
    requires id in infos && !infos[id].inTried && infos[id].refCount == 0
    ensures var fewer := infos - {id};
      && NewSlotsOk(h, key, fewer, newT) && TriedOk(h, key, fewer, triedT) && RefsOk(fewer, newT, pending - {id})
      && TriedIds(fewer) == TriedIds(infos) && NewIds(fewer) == NewIds(infos) - {id}
  {
    assert SlotsOf(newT, id) == {};
    forall s | s in newT
      ensures newT[s] != id
    {
      assert s in SlotsOf(newT, newT[s]);
    }
  }

  lemma DeleteKeeps(m: Model, id: int, pending: set<int>, uncounted: set<int>)
    requires Consistent(m, pending, uncounted)
    requires id in m.infos && !m.infos[id].inTried && m.infos[id].refCount == 0 && id !in uncounted
    requires m.infos[id].randomPos == |m.order| - 1
    ensures Consistent(m.(infos := m.infos - {id}, byAddr := m.byAddr - {m.infos[id].address.service.ip},
                          order := m.order[..|m.order| - 1], nNew := m.nNew - 1), pending - {id}, uncounted)
  {
    PopOrder(m.infos, m.order, id);
    AddrShrink(m.infos, m.byAddr, id);
    TablesShrink(m.hashing, m.key, m.infos, id, m.newT, m.triedT, pending);
    assert NewIds(m.infos - {id}) - uncounted == (NewIds(m.infos) - uncounted) - {id};
  }

  lemma RefsDrop(infos: map<int, Info>, t: Table, s: Slot, pending: set<int>)
    requires RefsOk(infos, t, pending) && s in t && t[s] in infos
    ensures var id := t[s];
      && infos[id].refCount > 0
      && RefsOk(infos[id := infos[id].(refCount := infos[id].refCount - 1)], t - {s},
                pending + (if infos[id].refCount == 1 then {id} else {}))
  {
    var id := t[s];
    assert s in SlotsOf(t, id);
    assert SlotsOf(t - {s}, id) == SlotsOf(t, id) - {s};
    forall k | k != id
      ensures SlotsOf(t - {s}, k) == SlotsOf(t, k)
    {
    }
  }

  lemma RefsRaise(infos: map<int, Info>, t: Table, s: Slot, id: int, pending: set<int>)
    requires RefsOk(infos, t, pending) && s !in t && id in infos && infos[id].refCount < NEW_BUCKETS_PER_ADDRESS
    ensures RefsOk(infos[id := infos[id].(refCount := infos[id].refCount + 1)], t[s := id], pending - {id})
  {
    assert SlotsOf(t[s := id], id) == SlotsOf(t, id) + {s};
    forall k | k != id
      ensures SlotsOf(t[s := id], k) == SlotsOf(t, k)
    {
    }
  }

  /** A change of one reference count is invisible to the index and to the tables. */
  lemma RefFrame(m: Model, id: int, refs: int)
    requires AddrOk(m.infos, m.byAddr) && OrderOk(m.infos, m.order) && id in m.infos
    requires NewSlotsOk(m.hashing, m.key, m.infos, m.newT) && TriedOk(m.hashing, m.key, m.infos, m.triedT)
    ensures var infos := m.infos[id := m.infos[id].(refCount := refs)];
      && AddrOk(infos, m.byAddr) && OrderOk(infos, m.order)
      && NewSlotsOk(m.hashing, m.key, infos, m.newT) && TriedOk(m.hashing, m.key, infos, m.triedT)
      && TriedIds(infos) == TriedIds(m.infos) && NewIds(infos) == NewIds(m.infos)
  {
    var infos := m.infos[id := m.infos[id].(refCount := refs)];
    assert SameTables(m.infos, infos);
    assert forall k :: k in infos ==> infos[k].randomPos == m.infos[k].randomPos;
    AddrFrame(m.infos, infos, m.byAddr);
    OrderFrame(m.infos, infos, m.order);
    TablesFrame(m.hashing, m.key, m.infos, infos, m.newT, m.triedT);
  }

  /** Taking entry `id` out of the new slot `s`, one reference down. */
  lemma DropSlotKeeps(m: Model, s: Slot, pending: set<int>, uncounted: set<int>)
    requires Consistent(m, pending, uncounted) && s in m.newT
    ensures var id := m.newT[s];
      && id in m.infos && m.infos[id].refCount > 0 && !m.infos[id].inTried
      && Consistent(m.(infos := m.infos[id := m.infos[id].(refCount := m.infos[id].refCount - 1)], newT := m.newT - {s}),
                    pending + (if m.infos[id].refCount == 1 then {id} else {}), uncounted)
  {
    var id := m.newT[s];
    var infos := m.infos[id := m.infos[id].(refCount := m.infos[id].refCount - 1)];
    RefsDrop(m.infos, m.newT, s, pending);
    RefFrame(m, id, m.infos[id].refCount - 1);
    NewSlotEmptied(m.hashing, m.key, infos, m.newT, s);
  }

  lemma NewSlotEmptied(h: Hashing, key: int, infos: map<int, Info>, t: Table, s: Slot)
    requires NewSlotsOk(h, key, infos, t)
    ensures NewSlotsOk(h, key, infos, t - {s})
  {
  }

  lemma NewSlotFilled(h: Hashing, key: int, infos: map<int, Info>, t: Table, b: int, id: int)
    requires NewSlotsOk(h, key, infos, t)
    requires id in infos && !infos[id].inTried && 0 <= b < NEW_BUCKET_COUNT
    ensures NewSlotsOk(h, key, infos, t[NewSlot(h, key, b, infos[id].address.service) := id])
  {
  }

  /** Putting an untried entry with a free reference into its empty slot in new bucket `b`. */
  lemma AddSlotKeeps(m: Model, b: int, id: int, pending: set<int>, uncounted: set<int>)
    requires Consistent(m, pending, uncounted)
    requires id in m.infos && !m.infos[id].inTried && m.infos[id].refCount < NEW_BUCKETS_PER_ADDRESS
    requires 0 <= b < NEW_BUCKET_COUNT
    requires NewSlot(m.hashing, m.key, b, m.infos[id].address.service) !in m.newT
    ensures var s := NewSlot(m.hashing, m.key, b, m.infos[id].address.service);
      Consistent(m.(infos := m.infos[id := m.infos[id].(refCount := m.infos[id].refCount + 1)], newT := m.newT[s := id]),
                 pending - {id}, uncounted)
  {
    var s := NewSlot(m.hashing, m.key, b, m.infos[id].address.service);
    var infos := m.infos[id := m.infos[id].(refCount := m.infos[id].refCount + 1)];
    RefsRaise(m.infos, m.newT, s, id, pending);
    RefFrame(m, id, m.infos[id].refCount + 1);
    NewSlotFilled(m.hashing, m.key, infos, m.newT, b, id);
  }

  lemma TablesDemote(h: Hashing, key: int, infos: map<int, Info>, id: int, newT: Table, triedT: Table)
    requires NewSlotsOk(h, key, infos, newT) && TriedOk(h, key, infos, triedT)
    requires id in infos && infos[id].inTried
    ensures var after := infos[id := infos[id].(inTried := false)];
      && NewSlotsOk(h, key, after, newT)
      && TriedOk(h, key, after, triedT - {TriedSlot(h, key, infos[id].address.service)})
      && TriedIds(after) == TriedIds(infos) - {id} && NewIds(after) == NewIds(infos) + {id}
  {
  }

  lemma RefsDemote(infos: map<int, Info>, id: int, t: Table, pending: set<int>)
    requires RefsOk(infos, t, pending) && id in infos
    ensures RefsOk(infos[id := infos[id].(inTried := false)], t, pending + {id})
  {
  }

  lemma TablesPromote(h: Hashing, key: int, infos: map<int, Info>, id: int, newT: Table, triedT: Table)
    requires NewSlotsOk(h, key, infos, newT) && TriedOk(h, key, infos, triedT)
    requires id in infos && !infos[id].inTried && SlotsOf(newT, id) == {}
    requires TriedSlot(h, key, infos[id].address.service) !in triedT
    ensures var after := infos[id := infos[id].(inTried := true)];
      && NewSlotsOk(h, key, after, newT)
      && TriedOk(h, key, after, triedT[TriedSlot(h, key, infos[id].address.service) := id])
      && TriedIds(after) == TriedIds(infos) + {id} && NewIds(after) == NewIds(infos) - {id}
  {
    forall s | s in newT
      ensures newT[s] != id
    {
      assert s in SlotsOf(newT, newT[s]);
    }
  }

  lemma IndexFlip(m: Model, id: int, tried: bool)
    requires AddrOk(m.infos, m.byAddr) && OrderOk(m.infos, m.order) && id in m.infos
    ensures AddrOk(m.infos[id := m.infos[id].(inTried := tried)], m.byAddr)
    ensures OrderOk(m.infos[id := m.infos[id].(inTried := tried)], m.order)
  {
    var infos := m.infos[id := m.infos[id].(inTried := tried)];
    assert infos.Keys == m.infos.Keys;
    OrderFrame(m.infos, infos, m.order);
    AddrFrame(m.infos, infos, m.byAddr);
  }

  /** A tried entry leaves its slot; it is then in no table. */
  lemma EvictKeeps(m: Model, id: int, pending: set<int>, uncounted: set<int>)
    requires Consistent(m, pending, uncounted)
    requires id in m.infos && m.infos[id].inTried
    ensures Consistent(m.(infos := m.infos[id := m.infos[id].(inTried := false)], nTried := m.nTried - 1,
                          triedT := m.triedT - {TriedSlot(m.hashing, m.key, m.infos[id].address.service)}),
                       pending + {id}, uncounted + {id})
  {
    var infos := m.infos[id := m.infos[id].(inTried := false)];
    IndexFlip(m, id, false);
    RefsDemote(m.infos, id, m.newT, pending);
    TablesDemote(m.hashing, m.key, m.infos, id, m.newT, m.triedT);
    assert NewIds(infos) - (uncounted + {id}) == NewIds(m.infos) - uncounted;
  }

  /** An entry in transit enters its empty tried slot. */
  lemma PromoteKeeps(m: Model, id: int, pending: set<int>, uncounted: set<int>)
    requires Consistent(m, pending, uncounted)
    requires id in m.infos && id in uncounted && m.infos[id].refCount == 0
    requires TriedSlot(m.hashing, m.key, m.infos[id].address.service) !in m.triedT
    ensures Consistent(m.(infos := m.infos[id := m.infos[id].(inTried := true)], nTried := m.nTried + 1,
                          triedT := m.triedT[TriedSlot(m.hashing, m.key, m.infos[id].address.service) := id]),
                       pending - {id}, uncounted - {id})
  {
    var infos := m.infos[id := m.infos[id].(inTried := true)];
    IndexFlip(m, id, true);
    assert |SlotsOf(m.newT, id)| == 0;
    TablesPromote(m.hashing, m.key, m.infos, id, m.newT, m.triedT);
    assert NewIds(infos) - (uncounted - {id}) == NewIds(m.infos) - uncounted;
  }

  /** An untried entry starts or stops being counted. */
  lemma CountKeeps(m: Model, id: int, pending: set<int>, uncounted: set<int>)
    requires Consistent(m, pending, uncounted) && id in m.infos && !m.infos[id].inTried
    ensures id in uncounted ==> Consistent(m.(nNew := m.nNew + 1), pending, uncounted - {id})
    ensures id !in uncounted ==> Consistent(m.(nNew := m.nNew - 1), pending, uncounted + {id})
  {
    if id in uncounted {
      assert NewIds(m.infos) - (uncounted - {id}) == (NewIds(m.infos) - uncounted) + {id};
    } else {
      assert NewIds(m.infos) - (uncounted + {id}) == (NewIds(m.infos) - uncounted) - {id};
    }
  }

  /** More entries may be pending. */
  lemma PendingGrows(m: Model, pending: set<int>, more: set<int>, uncounted: set<int>)
    requires Consistent(m, pending, uncounted) && pending <= more
    ensures Consistent(m, more, uncounted)
  {
    hide IdsOk, AddrOk, OrderOk, CountsOk, NewSlotsOk, TriedOk;
  }

  /** A tried entry has no reference from the new table. */
  lemma TriedHasNoRefs(m: Model, id: int, pending: set<int>, uncounted: set<int>)
    requires Consistent(m, pending, uncounted) && id in m.infos && m.infos[id].inTried
    ensures m.infos[id].refCount == 0 && SlotsOf(m.newT, id) == {}
  {
    hide IdsOk, AddrOk, OrderOk, CountsOk, TriedOk;
    forall s | s in m.newT
      ensures m.newT[s] != id
    {
    }
    assert SlotsOf(m.newT, id) == {};
  }

  /** The occupant of a tried slot is a tried entry that belongs there. */
  lemma OccupantIsTried(m: Model, s: Slot, pending: set<int>, uncounted: set<int>)
    requires Consistent(m, pending, uncounted) && s in m.triedT
    ensures m.triedT[s] in m.infos && m.infos[m.triedT[s]].inTried && m.triedT[s] !in uncounted
    ensures s == TriedSlot(m.hashing, m.key, m.infos[m.triedT[s]].address.service)
  {
    hide IdsOk, AddrOk, OrderOk, NewSlotsOk, RefsOk;
  }

  /** The occupant of a new slot is an untried entry with at least one reference. */
  lemma OccupantIsNew(m: Model, s: Slot, pending: set<int>, uncounted: set<int>)
    requires Consistent(m, pending, uncounted) && s in m.newT
    ensures m.newT[s] in m.infos && !m.infos[m.newT[s]].inTried && m.infos[m.newT[s]].refCount > 0
  {
    DropSlotKeeps(m, s, pending, uncounted);
  }

  /** Entries without references survive the clearing of a new slot. */
  lemma ClearSpares(m: Model, n: Model, s: Slot, pending: set<int>, uncounted: set<int>)
    requires Consistent(m, pending, uncounted) && Cleared(m.newT, s, m.infos, n.infos, m.byAddr, n.byAddr)
    requires forall id :: id in pending ==> id in m.infos && m.infos[id].refCount == 0
    ensures forall id :: id in pending ==> id in n.infos && SameButPos(n.infos[id], m.infos[id])
  {
    if s in m.newT {
      DropSlotKeeps(m, s, pending, uncounted);
    }
    hide Consistent;
    forall id | id in pending ensures id in n.infos && SameButPos(n.infos[id], m.infos[id]) {
      assert id in n.infos.Keys;
    }
  }

  lemma NothingEvicted(m: Model, s: Slot)
    requires s !in m.triedT
    ensures Evicted(m, m, s)
  {
  }

  lemma EvictedBySteps(m0: Model, m2: Model, m4: Model, s: Slot)
    requires s in m0.triedT && m0.triedT[s] in m0.infos
    requires var e := m0.triedT[s];
      var home := HomeSlot(m0.hashing, m0.key, m0.infos[e]);
      && m0.infos[e].refCount == 0
      && Cleared(m0.newT, home, m0.infos[e := m0.infos[e].(inTried := false)], m2.infos, m0.byAddr, m2.byAddr)
      && m2.newT == m0.newT - {home} && m2.triedT == m0.triedT - {s}
      && e in m2.infos && SameButPos(m2.infos[e], m0.infos[e].(inTried := false))
      && m4.infos == m2.infos[e := m2.infos[e].(refCount := 1)]
      && m4.newT == m2.newT[home := e] && m4.triedT == m2.triedT && m4.byAddr == m2.byAddr
    ensures Evicted(m0, m4, s)
  {
    var e := m0.triedT[s];
    assert m4.infos[e := m4.infos[e].(refCount := 0)] == m2.infos;
    assert m4.newT == m0.newT[HomeSlot(m0.hashing, m0.key, m0.infos[e]) := e];
  }

  lemma MadeTriedBySteps(m0: Model, m2: Model, m3: Model, id: int)
    requires id in m0.infos && id in m2.infos
    requires var s := TriedSlot(m0.hashing, m0.key, m0.infos[id].address.service);
      && Evicted(Removed(m0, id), m2, s)
      && m2.triedT == m0.triedT - {s}
      && SameButPos(m2.infos[id], m0.infos[id].(refCount := 0)) && !m2.infos[id].inTried
      && m3 == m2.(infos := m2.infos[id := m2.infos[id].(inTried := true)], nTried := m2.nTried + 1,
                   triedT := m2.triedT[s := id])
    ensures MadeTried(m0, m3, id)
  {
    hide Evicted;
    assert m3.infos[id := m3.infos[id].(inTried := false)] == m2.infos;
    var s := TriedSlot(m0.hashing, m0.key, m0.infos[id].address.service);
    assert m3.(infos := m3.infos[id := m3.infos[id].(inTried := false)], triedT := m0.triedT - {s},
               nTried := m3.nTried - 1) == m2;
  }

  lemma IdInRange(m: Model, id: int, pending: set<int>, uncounted: set<int>)
    requires Consistent(m, pending, uncounted) && id in m.infos
    ensures 0 <= id < m.idCount && 0 <= m.infos[id].refCount
  {
    hide AddrOk, OrderOk, CountsOk, NewSlotsOk, TriedOk;
  }

  lemma NoSlotsNoRefs(m: Model, t: Table, id: int, pending: set<int>, uncounted: set<int>)
    requires Consistent(m, pending, uncounted) && id in m.infos && m.newT == t - SlotsOf(t, id)
    ensures m.infos[id].refCount == 0
  {
    hide IdsOk, AddrOk, OrderOk, CountsOk, TriedOk, NewSlotsOk;
    assert SlotsOf(m.newT, id) == {};
  }

  /** An untried, settled entry has a new slot, and that slot is its own position in the bucket. */
  lemma HasNewSlot(m: Model, id: int) returns (b: int)
    requires Consistent(m, {}, {}) && id in m.infos && !m.infos[id].inTried
    ensures 0 <= b < NEW_BUCKET_COUNT
    ensures NewSlot(m.hashing, m.key, b, m.infos[id].address.service) in SlotsOf(m.newT, id)
  {
    hide IdsOk, AddrOk, OrderOk, CountsOk, TriedOk;
    assert |SlotsOf(m.newT, id)| > 0;
    var s :| s in SlotsOf(m.newT, id);
    b := s.0;
  }

  /** The slots of `id` in the first `bound` buckets. */
  ghost function SlotsBelow(t: Table, id: int, bound: int): set<Slot> {
    set s | s in t && t[s] == id && s.0 < bound
  }

  lemma NoneBelow(m: Model, id: int)
    requires Consistent(m, {}, {})
    ensures m.newT - SlotsBelow(m.newT, id, 0) == m.newT
  {
    hide IdsOk, AddrOk, OrderOk, CountsOk, TriedOk, RefsOk;
  }

  lemma AllBelow(m: Model, id: int)
    requires Consistent(m, {}, {})
    ensures SlotsBelow(m.newT, id, NEW_BUCKET_COUNT) == SlotsOf(m.newT, id)
  {
    hide IdsOk, AddrOk, OrderOk, CountsOk, TriedOk, RefsOk;
  }

  lemma SlotsBelowStep(m: Model, t: Table, id: int, b: int, pending: set<int>)
    requires Consistent(m, pending, {}) && id in m.infos
    requires m.newT == t - SlotsBelow(t, id, b)
    ensures var s := NewSlot(m.hashing, m.key, b, m.infos[id].address.service);
      if s in m.newT && m.newT[s] == id
      then m.newT - {s} == t - SlotsBelow(t, id, b + 1)
      else m.newT == t - SlotsBelow(t, id, b + 1)
  {
    hide IdsOk, AddrOk, OrderOk, CountsOk, TriedOk, RefsOk;
    var s := NewSlot(m.hashing, m.key, b, m.infos[id].address.service);
    forall r | r in t && t[r] == id && r.0 == b
      ensures r == s && r in m.newT && m.newT[r] == id
    {
    }
  }

  /** The fields that describe the peer, as opposed to its place in the tables. */
  predicate SamePeer(a: Info, b: Info) {
    a.address == b.address && a.source == b.source && a.lastTry == b.lastTry && a.lastCountAttempt == b.lastCountAttempt
    && a.lastSuccess == b.lastSuccess && a.attempts == b.attempts
  }

  /** Entry `k` occupies the tried slot of entry `id`. */
  ghost predicate InTheWay(m: Model, id: int, k: int)
    requires id in m.infos
  {
    var s := TriedSlot(m.hashing, m.key, m.infos[id].address.service);
    s in m.triedT && m.triedT[s] == k
  }

  /** At most the untried entry with a single reference is lost, no entry appears, peers' data stay, and no entry but `id`
      becomes tried. */
  lemma MadeTriedFacts(before: Model, after: Model, id: int)
    requires Consistent(before, {}, {}) && MadeTried(before, after, id) && !before.infos[id].inTried
    ensures forall k :: k in after.infos ==> k in before.infos && SamePeer(after.infos[k], before.infos[k])
    ensures forall k :: k in after.infos && after.infos[k].inTried ==> k == id || before.infos[k].inTried
    ensures forall k :: k in before.infos && k !in after.infos ==>
              k != id && !before.infos[k].inTried && before.infos[k].refCount == 1
    ensures forall k, l :: k in before.infos && k !in after.infos && l in before.infos && l !in after.infos ==> k == l
    ensures forall k :: k in before.infos && before.infos[k].inTried ==>
              k in after.infos && (after.infos[k].inTried || InTheWay(before, id, k))
  {
    hide IdsOk, AddrOk, OrderOk, CountsOk, RefsOk, NewSlotsOk, TriedOk, Evicted;
    var s := TriedSlot(before.hashing, before.key, before.infos[id].address.service);
    var m1 := Removed(before, id);
    var m2 := after.(infos := after.infos[id := after.infos[id].(inTried := false)], triedT := before.triedT - {s},
                     nTried := after.nTried - 1);
    assert m1.infos.Keys == before.infos.Keys && m2.infos.Keys == after.infos.Keys;
    if s in m1.triedT {
      OccupantIsTried(before, s, {}, {});
    }
    RemovedSlots(before, id);
    EvictedFacts(m1, m2, s);
    forall k | k in after.infos
      ensures k in before.infos && SamePeer(after.infos[k], before.infos[k])
    {
      assert k in m2.infos.Keys;
      assert k in m1.infos.Keys;
    }
    forall k | k in before.infos && k !in after.infos
      ensures k != id && !before.infos[k].inTried && before.infos[k].refCount == 1
    {
      assert k in m1.infos.Keys;
      assert k !in m2.infos.Keys;
    }
    forall k | k in before.infos && before.infos[k].inTried
      ensures k in after.infos && (after.infos[k].inTried || InTheWay(before, id, k))
    {
      assert k in m1.infos.Keys;
      assert k in m2.infos.Keys;
    }
  }

  /** With `id` gone from it, the new table holds only other, untried entries. */
  lemma RemovedSlots(m: Model, id: int)
    requires Consistent(m, {}, {}) && id in m.infos
    ensures var n := Removed(m, id);
      forall s :: s in n.newT ==> n.newT[s] in n.infos && n.newT[s] != id && !n.infos[n.newT[s]].inTried
  {
    hide IdsOk, AddrOk, OrderOk, CountsOk, RefsOk, TriedOk;
    var n := Removed(m, id);
    forall s | s in n.newT
      ensures n.newT[s] in n.infos && n.newT[s] != id && !n.infos[n.newT[s]].inTried
    {
      var k := n.newT[s];
      assert s in m.newT && m.newT[s] == k;
      assert s !in SlotsOf(m.newT, id);
    }
  }

  lemma EvictedFacts(before: Model, after: Model, s: Slot)
    requires Evicted(before, after, s)
    requires s in before.triedT ==> before.infos[before.triedT[s]].inTried
    requires forall s :: s in before.newT ==> before.newT[s] in before.infos && !before.infos[before.newT[s]].inTried
    ensures forall k :: k in after.infos ==> k in before.infos && SamePeer(after.infos[k], before.infos[k])
    ensures forall k :: k in after.infos && after.infos[k].inTried ==> before.infos[k].inTried
    ensures forall k :: k in before.infos && k !in after.infos ==>
              && !before.infos[k].inTried && before.infos[k].refCount == 1
              && (exists r :: r in before.newT && before.newT[r] == k)
    ensures forall k, l :: k in before.infos && k !in after.infos && l in before.infos && l !in after.infos ==> k == l
    ensures forall k :: k in before.infos && before.infos[k].inTried ==>
              k in after.infos && (after.infos[k].inTried || (s in before.triedT && before.triedT[s] == k))
  {
    if s in before.triedT {
      var e := before.triedT[s];
      var home := HomeSlot(before.hashing, before.key, before.infos[e]);
      var freed := before.infos[e := before.infos[e].(inTried := false)];
      var closed := after.infos[e := after.infos[e].(refCount := freed[e].refCount)];
      assert freed.Keys == before.infos.Keys && closed.Keys == after.infos.Keys;
      if home in before.newT {
        var victim := before.newT[home];
        assert victim in before.infos;
        assert victim != e;
        assert closed.Keys == if freed[victim].refCount == 1 then freed.Keys - {victim} else freed.Keys;
        forall k | k in after.infos
          ensures k in before.infos && SamePeer(after.infos[k], before.infos[k])
        {
          assert k in closed.Keys;
          assert k in freed.Keys;
        }
      }
    }
  }

  /** A filled tried slot stays filled, so collisions keep facing an occupant. */
  lemma MadeTriedCollisions(before: Model, after: Model, id: int, collisions: set<int>)
    requires Consistent(before, {}, {}) && MadeTried(before, after, id) && !before.infos[id].inTried
    requires after.key == before.key && after.hashing == before.hashing && after.idCount == before.idCount
    requires CollisionsOk(before, collisions)
    ensures CollisionsOk(after, collisions)
  {
    MadeTriedFacts(before, after, id);
    hide Consistent;
  }

  /** Entry `id` with the data of its peer replaced. */
  ghost function Touched(m: Model, id: int, info: Info): Model {
    m.(infos := m.infos[id := info])
  }

  lemma TouchValid(m: Model, id: int, info: Info, collisions: set<int>)
    requires Consistent(m, {}, {}) && id in m.infos && SameStructure(info, m.infos[id])
    ensures Consistent(Touched(m, id, info), {}, {})
    ensures CollisionsOk(m, collisions) ==> CollisionsOk(Touched(m, id, info), collisions)
  {
    hide IdsOk, AddrOk, CountsOk, NewSlotsOk, RefsOk, TriedOk;
    var n := Touched(m, id, info);
    assert n.infos.Keys == m.infos.Keys;
    OrderFrame(m.infos, n.infos, m.order);
    TouchKeeps(m, n, {}, {});
  }

  /** The id under which exactly this address and port is known. */
  ghost predicate Known(m: Model, addr: Service) {
    addr.ip in m.byAddr && m.byAddr[addr.ip] in m.infos && m.infos[m.byAddr[addr.ip]].address.service == addr
  }

  /** What marking `addr` as good does. */
  ghost predicate GoodEffect(before: Model, after: Model, collisions: set<int>, collisionsAfter: set<int>,
                             addr: Service, testBeforeEvict: bool, time: int)
  {
    if !Known(before, addr) then
      after == before && collisionsAfter == collisions
    else
      var id := before.byAddr[addr.ip];
      var info := before.infos[id].(lastSuccess := time, lastTry := time, attempts := 0);
      var occupied := TriedSlot(before.hashing, before.key, addr) in before.triedT;
      if info.inTried then
        after == Touched(before, id, info) && collisionsAfter == collisions
      else if testBeforeEvict && occupied then
        && after == Touched(before, id, info)
        && collisionsAfter == if |collisions| < SET_TRIED_COLLISION_SIZE then collisions + {id} else collisions
      else
        && MadeTried(Touched(before, id, info), after, id)
        && collisionsAfter == collisions
  }

  lemma CollisionAdded(m: Model, collisions: set<int>, id: int)
    requires Consistent(m, {}, {}) && CollisionsOk(m, collisions) && |collisions| < SET_TRIED_COLLISION_SIZE
    requires id in m.infos && TriedSlot(m.hashing, m.key, m.infos[id].address.service) in m.triedT
    ensures CollisionsOk(m, collisions + {id})
  {
    hide AddrOk, OrderOk, CountsOk, NewSlotsOk, RefsOk, TriedOk;
  }

  /** Marking an address good keeps the times in order exactly when the time given is positive, or zero with the entry
      left untried. */
  lemma GoodTimes(before: Model, after: Model, collisions: set<int>, collisionsAfter: set<int>,
                  addr: Service, testBeforeEvict: bool, time: int)
    requires Consistent(before, {}, {}) && TimesOk(before.infos)
    requires GoodEffect(before, after, collisions, collisionsAfter, addr, testBeforeEvict, time)
    ensures !Known(before, addr) ==> TimesOk(after.infos)
    ensures Known(before, addr) ==>
      var id := before.byAddr[addr.ip];
      && id in after.infos
      && (TimesOk(after.infos) <==> time > 0 || (time == 0 && !after.infos[id].inTried))
  {
    hide IdsOk, AddrOk, OrderOk, CountsOk, NewSlotsOk, RefsOk, TriedOk, MadeTried;
    if Known(before, addr) {
      var id := before.byAddr[addr.ip];
      var info := before.infos[id].(lastSuccess := time, lastTry := time, attempts := 0);
      if MadeTried(Touched(before, id, info), after, id) && !info.inTried {
        TouchValid(before, id, info, {});
        MadeTriedFacts(Touched(before, id, info), after, id);
        MadeTriedSelf(Touched(before, id, info), after, id);
      }
    }
  }

  lemma MadeTriedSelf(before: Model, after: Model, id: int)
    requires MadeTried(before, after, id)
    ensures id in after.infos && after.infos[id].inTried && SamePeer(after.infos[id], before.infos[id])
  {
    hide Evicted;
  }

  /** A known entry after hearing about its address again. */
  function Refreshed(info: Info, addr: Address, timePenalty: int, now: int): Info {
    var interval := if now - addr.time < 24 * 60 * 60 then 60 * 60 else 24 * 60 * 60;
    var time := if addr.time != 0 && (info.address.time == 0 || info.address.time < addr.time - interval - timePenalty)
                then Max(0, addr.time - timePenalty) else info.address.time;
    info.(address := Address(info.address.service, info.address.services | addr.services, time))
  }

  lemma RefsInRange(m: Model, id: int)
    requires Consistent(m, {}, {}) && id in m.infos
    ensures 0 <= m.infos[id].refCount <= NEW_BUCKETS_PER_ADDRESS
    ensures !m.infos[id].inTried ==> m.infos[id].refCount > 0
  {
    hide IdsOk, AddrOk, OrderOk, CountsOk, NewSlotsOk, TriedOk;
  }

  /** A known entry may get one more reference: the announcement is fresher than what is known, the entry is untried and has
      room for a reference, and one draw in two to the number of its references succeeds. */
  predicate MayGrow(info: Info, addr: Address, draw: nat) {
    && addr.time != 0 && (info.address.time == 0 || info.address.time < addr.time)
    && !info.inTried && 0 <= info.refCount < NEW_BUCKETS_PER_ADDRESS
    && draw % Pow2(info.refCount) == 0
  }

  /** The occupant of a new slot may be overwritten by an entry with `refs` references. */
  predicate Yields(occupant: Info, refs: int, now: int) {
    IsTerrible(occupant, now) || (occupant.refCount > 1 && refs == 0)
  }

  /** What offering entry `id` a place in its new bucket for `source` does: it enters the slot if that is free or the
      occupant yields, it is dropped if it has no other slot, and the only other entry that can disappear is a terrible
      occupant without further slots. */
  ghost predicate EnteredNew(before: Model, after: Model, id: int, source: NetAddr, now: int) {
    id in before.infos &&
    var refs := before.infos[id].refCount;
    var service := before.infos[id].address.service;
    var s := NewSlot(before.hashing, before.key, NewBucket(before.hashing, before.key, service, source), service);
    var free := s !in before.newT || (before.newT[s] in before.infos && Yields(before.infos[before.newT[s]], refs, now));
    && (forall k :: k in after.infos ==>
          k in before.infos && SamePeer(after.infos[k], before.infos[k]) && after.infos[k].inTried == before.infos[k].inTried)
    && (forall k :: k in before.infos && k !in after.infos ==>
          if k == id then refs == 0 && !free
          else s in before.newT && before.newT[s] == k && before.infos[k].refCount == 1 && IsTerrible(before.infos[k], now))
    && (id in after.infos <==> refs > 0 || free)
    && after.newT == (if free then before.newT[s := id] else before.newT)
    && (id in after.infos ==>
          after.infos[id].refCount == if free && (s in before.newT ==> before.newT[s] != id) then refs + 1 else refs)
  }

  /** Entry `id` took its slot in new bucket `b` from the previous occupant, if any. */
  ghost predicate Overwrote(before: Model, after: Model, id: int, b: int) {
    && id in before.infos && id in after.infos
    && var s := NewSlot(before.hashing, before.key, b, before.infos[id].address.service);
    && after.newT == before.newT[s := id]
    && SameButPos(after.infos[id], before.infos[id].(refCount := before.infos[id].refCount + 1))
    && Cleared(before.newT, s, before.infos, after.infos[id := after.infos[id].(refCount := before.infos[id].refCount)],
               before.byAddr, after.byAddr)
  }

  lemma ClearedOther(m: Model, n: Model, s: Slot, id: int)
    requires Cleared(m.newT, s, m.infos, n.infos, m.byAddr, n.byAddr)
    requires id in m.infos && (s in m.newT ==> m.newT[s] != id)
    ensures id in n.infos && SameButPos(n.infos[id], m.infos[id])
  {
    if s in m.newT {
      assert id in n.infos.Keys;
    }
  }

  lemma OverwroteFacts(before: Model, after: Model, id: int, b: int)
    requires Overwrote(before, after, id, b)
    ensures var s := NewSlot(before.hashing, before.key, b, before.infos[id].address.service);
      && id in after.infos && after.infos[id].refCount == before.infos[id].refCount + 1
      && after.newT == before.newT[s := id]
      && (forall k :: k in after.infos ==>
            k in before.infos && SamePeer(after.infos[k], before.infos[k]) && after.infos[k].inTried == before.infos[k].inTried)
      && (forall k :: k in before.infos && k !in after.infos ==>
            s in before.newT && before.newT[s] == k && before.infos[k].refCount == 1)
  {
    var closed := after.infos[id := after.infos[id].(refCount := before.infos[id].refCount)];
    assert closed.Keys == after.infos.Keys;
    forall k | k in after.infos
      ensures k in before.infos && SamePeer(after.infos[k], before.infos[k])
      ensures after.infos[k].inTried == before.infos[k].inTried
    {
      assert k in closed.Keys;
    }
    forall k | k in before.infos && k !in after.infos
      ensures var s := NewSlot(before.hashing, before.key, b, before.infos[id].address.service);
        s in before.newT && before.newT[s] == k && before.infos[k].refCount == 1
    {
      assert k !in closed.Keys;
      assert k in before.infos.Keys;
    }
  }

  lemma CreatedTouched(m: Model, id: int, info: Info)
    requires Consistent(m, {id}, {id}) && id in m.infos && SameStructure(info, m.infos[id])
    ensures Consistent(Touched(m, id, info), {id}, {id})
  {
    hide IdsOk, AddrOk, CountsOk, NewSlotsOk, RefsOk, TriedOk;
    var n := Touched(m, id, info);
    assert n.infos.Keys == m.infos.Keys;
    OrderFrame(m.infos, n.infos, m.order);
    TouchKeeps(m, n, {id}, {id});
  }

  /** A source that announces itself is not penalized. */
  function Penalty(addr: Address, source: NetAddr, timePenalty: int): int {
    if addr.service.ip == source then 0 else timePenalty
  }

  /** The entry of an address heard for the first time, before it has a place. */
  function Newcomer(addr: Address, source: NetAddr, penalty: int): Info {
    Info(addr.(time := Max(0, addr.time - penalty)), source, 0, 0, 0, 0, 0, false, 0)
  }

  /** What hearing about a routable address does to the set of known addresses: no other address becomes known; a known one
      is forgotten only if it was terrible, untried and down to one slot; and peers other than `addr` keep their data and
      their table. */
  ghost predicate OthersKept(before: Model, after: Model, addr: Address, now: int) {
    var ip := addr.service.ip;
    && (forall a :: a in after.byAddr ==> a in before.byAddr || a == ip)
    && (forall a :: a in before.byAddr && a !in after.byAddr ==>
          && a != ip && before.byAddr[a] in before.infos
          && var info := before.infos[before.byAddr[a]];
             !info.inTried && info.refCount == 1 && IsTerrible(info, now))
    && (forall a :: a in before.byAddr && a in after.byAddr && a != ip ==>
          && after.byAddr[a] == before.byAddr[a] && before.byAddr[a] in before.infos && after.byAddr[a] in after.infos
          && SamePeer(after.infos[after.byAddr[a]], before.infos[before.byAddr[a]])
          && after.infos[after.byAddr[a]].inTried == before.infos[before.byAddr[a]].inTried)
  }

  /** What it does to the entry of `addr`: an address heard for the first time is kept exactly when its slot for this source
      is free or the occupant yields, and then it is in that slot under the next id; a known one is refreshed, and gets that
      slot exactly when it may grow and the slot is free or the occupant yields. */
  ghost predicate Heard(before: Model, after: Model, addr: Address, source: NetAddr, penalty: int, now: int, draw: nat) {
    var ip := addr.service.ip;
    if ip in before.byAddr then
      && ip in after.byAddr && after.byAddr[ip] == before.byAddr[ip]
      && var id := before.byAddr[ip];
      && id in before.infos && id in after.infos
      && SamePeer(after.infos[id], Refreshed(before.infos[id], addr, penalty, now))
      && after.infos[id].inTried == before.infos[id].inTried
      && var s := SourceSlot(before, before.infos[id].address.service, source);
      && (after.newT == if MayGrow(Refreshed(before.infos[id], addr, penalty, now), addr, draw)
                           && Free(before, s, before.infos[id].refCount, now)
                        then before.newT[s := id] else before.newT)
    else
      var s := SourceSlot(before, addr.service, source);
      && (ip in after.byAddr <==> Free(before, s, 0, now))
      && (if ip in after.byAddr
          then after.byAddr[ip] == before.idCount && after.byAddr[ip] in after.infos
               && SamePeer(after.infos[after.byAddr[ip]], Newcomer(addr, source, penalty))
               && !after.infos[after.byAddr[ip]].inTried && after.infos[after.byAddr[ip]].refCount == 1
               && after.newT == before.newT[s := after.byAddr[ip]]
          else after.newT == before.newT)
  }

  /** The slot of a peer in the new bucket for `source`. */
  function SourceSlot(m: Model, service: Service, source: NetAddr): Slot {
    NewSlot(m.hashing, m.key, NewBucket(m.hashing, m.key, service, source), service)
  }

  /** An entry with `refs` references can have the new slot `s`. */
  ghost predicate Free(m: Model, s: Slot, refs: int, now: int) {
    s in m.newT ==> m.newT[s] in m.infos && Yields(m.infos[m.newT[s]], refs, now)
  }

  ghost predicate AddEffect(before: Model, after: Model, addr: Address, source: NetAddr, penalty: int, now: int, draw: nat) {
    OthersKept(before, after, addr, now) && Heard(before, after, addr, source, penalty, now, draw)
  }

  lemma RefreshFacts(m: Model, id: int, info: Info, addr: Address, source: NetAddr, penalty: int, now: int, draw: nat)
    requires Consistent(m, {}, {}) && addr.service.ip in m.byAddr && id == m.byAddr[addr.service.ip] && id in m.infos
    requires info == Refreshed(m.infos[id], addr, penalty, now) && !MayGrow(info, addr, draw)
    ensures AddEffect(m, Touched(m, id, info), addr, source, penalty, now, draw)
    ensures TimesOk(m.infos) ==> TimesOk(Touched(m, id, info).infos)
  {
    hide Consistent, IdsOk, OrderOk, CountsOk, NewSlotsOk, RefsOk, TriedOk, Heard, OthersKept, MayGrow;
    assert AddrOk(m.infos, m.byAddr) by { ConsistentAddr(m); }
    RefreshOthers(m, id, info, addr, now);
    RefreshHeard(m, id, info, addr, source, penalty, now, draw);
  }

  lemma ConsistentAddr(m: Model)
    requires Consistent(m, {}, {})
    ensures AddrOk(m.infos, m.byAddr)
  {
    hide IdsOk, AddrOk, OrderOk, CountsOk, NewSlotsOk, RefsOk, TriedOk;
  }

  lemma RefreshOthers(m: Model, id: int, info: Info, addr: Address, now: int)
    requires AddrOk(m.infos, m.byAddr) && addr.service.ip in m.byAddr && id == m.byAddr[addr.service.ip] && id in m.infos
    ensures OthersKept(m, Touched(m, id, info), addr, now)
  {
    hide IsTerrible;
  }

  lemma RefreshHeard(m: Model, id: int, info: Info, addr: Address, source: NetAddr, penalty: int, now: int, draw: nat)
    requires addr.service.ip in m.byAddr && id == m.byAddr[addr.service.ip] && id in m.infos
    requires info == Refreshed(m.infos[id], addr, penalty, now) && !MayGrow(info, addr, draw)
    ensures Heard(m, Touched(m, id, info), addr, source, penalty, now, draw)
  {
    hide SourceSlot, Yields, Free, MayGrow;
  }

  /** `mid` is `before` with the entry of `addr` refreshed or created. */
  ghost predicate Offered(before: Model, mid: Model, id: int, addr: Address, source: NetAddr, penalty: int, now: int) {
    var ip := addr.service.ip;
    && id in mid.infos && !mid.infos[id].inTried
    && mid.infos[id].address.service.ip == ip
    && mid.newT == before.newT && mid.triedT == before.triedT && mid.hashing == before.hashing && mid.key == before.key
    && (forall k :: k in before.infos && k != id ==> k in mid.infos && mid.infos[k] == before.infos[k])
    && (if ip in before.byAddr
        then before.byAddr[ip] == id && mid.byAddr == before.byAddr && mid.idCount == before.idCount
             && mid.infos.Keys == before.infos.Keys && id in before.infos && mid.infos[id].refCount > 0
             && mid.infos[id] == Refreshed(before.infos[id], addr, penalty, now)
        else id == before.idCount && mid.byAddr == before.byAddr[ip := id] && mid.idCount == id + 1
             && mid.infos.Keys == before.infos.Keys + {id} && mid.infos[id].refCount == 0
             && SamePeer(mid.infos[id], Newcomer(addr, source, penalty)))
  }

  /** After the offer, an entry other than the new one is an old one with the same peer and table. */
  lemma OfferedOld(before: Model, mid: Model, after: Model, id: int, addr: Address, source: NetAddr, penalty: int,
                   now: int, k: int)
    requires Offered(before, mid, id, addr, source, penalty, now) && EnteredNew(mid, after, id, source, now)
    requires k in after.infos && k != id
    ensures k in before.infos && SamePeer(after.infos[k], before.infos[k])
    ensures after.infos[k].inTried == before.infos[k].inTried
  {
    assert k in mid.infos.Keys;
    assert k in before.infos.Keys;
  }

  lemma AddFacts(before: Model, mid: Model, after: Model, id: int, addr: Address, source: NetAddr, penalty: int, now: int,
                 draw: nat, collisions: set<int>)
    requires Consistent(before, {}, {})
    requires addr.service.ip in before.byAddr ==> id in mid.infos && MayGrow(mid.infos[id], addr, draw)
    requires Offered(before, mid, id, addr, source, penalty, now)
    requires EnteredNew(mid, after, id, source, now) && Consistent(after, {}, {})
    requires after.hashing == mid.hashing && after.key == mid.key && after.idCount == mid.idCount && after.triedT == mid.triedT
    ensures AddEffect(before, after, addr, source, penalty, now, draw)
    ensures CollisionsOk(before, collisions) ==> CollisionsOk(after, collisions)
    ensures TimesOk(before.infos) ==> TimesOk(after.infos)
  {
    hide AddrOk, OrderOk, CountsOk, NewSlotsOk, RefsOk, TriedOk, EnteredNew, MayGrow, Heard;
    AddedAddresses(before, mid, after, id, addr, source, penalty, now);
    ForgottenAddresses(before, mid, after, id, addr, source, penalty, now);
    AddKeepsRest(before, mid, after, id, addr, source, penalty, now, collisions);
    OfferedSelf(mid, after, id, source, now);
    if addr.service.ip in before.byAddr {
      KnownStays(before, mid, after, id, addr, source, penalty, now, draw);
    } else {
      NewcomerStays(before, mid, after, id, addr, source, penalty, now, draw);
    }
  }

  lemma KnownStays(before: Model, mid: Model, after: Model, id: int, addr: Address, source: NetAddr, penalty: int, now: int,
                   draw: nat)
    requires AddrOk(before.infos, before.byAddr) && AddrOk(after.infos, after.byAddr)
    requires NewSlotsOk(before.hashing, before.key, before.infos, before.newT)
    requires Offered(before, mid, id, addr, source, penalty, now) && EnteredNew(mid, after, id, source, now)
    requires addr.service.ip in before.byAddr && id in mid.infos && MayGrow(mid.infos[id], addr, draw)
    ensures Heard(before, after, addr, source, penalty, now, draw)
  {
    hide MayGrow, IsTerrible, NewBucket, AddrOk;
    OfferedSelf(mid, after, id, source, now);
    KnownAddress(before, mid, after, id, addr, source, penalty, now);
    var s := SourceSlot(before, before.infos[id].address.service, source);
    if s in before.newT && before.newT[s] == id {
      assert before.newT[s := id] == before.newT;
    } else if s in before.newT {
      assert mid.infos[before.newT[s]] == before.infos[before.newT[s]];
    }
  }

  lemma KnownAddress(before: Model, mid: Model, after: Model, id: int, addr: Address, source: NetAddr, penalty: int, now: int)
    requires AddrOk(before.infos, before.byAddr) && AddrOk(after.infos, after.byAddr)
    requires Offered(before, mid, id, addr, source, penalty, now) && EnteredNew(mid, after, id, source, now)
    requires addr.service.ip in before.byAddr
    ensures addr.service.ip in after.byAddr && after.byAddr[addr.service.ip] == id && id in after.infos
  {
    hide NewSlotsOk, IsTerrible;
    OfferedSelf(mid, after, id, source, now);
    assert id in after.infos;
  }

  lemma AddKeepsRest(before: Model, mid: Model, after: Model, id: int, addr: Address, source: NetAddr, penalty: int, now: int,
                     collisions: set<int>)
    requires TriedOk(before.hashing, before.key, before.infos, before.triedT)
    requires Offered(before, mid, id, addr, source, penalty, now) && EnteredNew(mid, after, id, source, now)
    requires after.hashing == mid.hashing && after.key == mid.key && after.idCount == mid.idCount && after.triedT == mid.triedT
    ensures CollisionsOk(before, collisions) ==> CollisionsOk(after, collisions)
    ensures TimesOk(before.infos) ==> TimesOk(after.infos)
  {
    hide EnteredNew, TriedOk;
    OfferedSelf(mid, after, id, source, now);
    forall k | k in after.infos && k != id
      ensures k in before.infos && SamePeer(after.infos[k], before.infos[k])
      ensures after.infos[k].inTried == before.infos[k].inTried
    {
      OfferedOld(before, mid, after, id, addr, source, penalty, now, k);
    }
    assert id in after.infos ==> !after.infos[id].inTried;
  }

  lemma AddedAddresses(before: Model, mid: Model, after: Model, id: int, addr: Address, source: NetAddr, penalty: int, now: int)
    requires AddrOk(before.infos, before.byAddr) && AddrOk(after.infos, after.byAddr)
    requires Offered(before, mid, id, addr, source, penalty, now) && EnteredNew(mid, after, id, source, now)
    ensures forall a :: a in after.byAddr && a != addr.service.ip ==>
      && a in before.byAddr && after.byAddr[a] == before.byAddr[a]
      && before.byAddr[a] in before.infos && after.byAddr[a] in after.infos
      && SamePeer(after.infos[after.byAddr[a]], before.infos[before.byAddr[a]])
      && after.infos[after.byAddr[a]].inTried == before.infos[before.byAddr[a]].inTried
  {
    hide EnteredNew;
    forall a | a in after.byAddr && a != addr.service.ip
      ensures a in before.byAddr && after.byAddr[a] == before.byAddr[a]
      ensures before.byAddr[a] in before.infos && after.byAddr[a] in after.infos
      ensures SamePeer(after.infos[after.byAddr[a]], before.infos[before.byAddr[a]])
      ensures after.infos[after.byAddr[a]].inTried == before.infos[before.byAddr[a]].inTried
    {
      var k := after.byAddr[a];
      OfferedSelf(mid, after, id, source, now);
      if k != id {
        OfferedOld(before, mid, after, id, addr, source, penalty, now, k);
      }
    }
  }

  lemma OfferedSelf(mid: Model, after: Model, id: int, source: NetAddr, now: int)
    requires EnteredNew(mid, after, id, source, now)
    ensures id in after.infos ==> SamePeer(after.infos[id], mid.infos[id]) && after.infos[id].inTried == mid.infos[id].inTried
  {
  }

  lemma ForgottenAddresses(before: Model, mid: Model, after: Model, id: int, addr: Address, source: NetAddr, penalty: int,
                           now: int)
    requires AddrOk(before.infos, before.byAddr) && AddrOk(after.infos, after.byAddr)
    requires Offered(before, mid, id, addr, source, penalty, now) && EnteredNew(mid, after, id, source, now)
    requires NewSlotsOk(before.hashing, before.key, before.infos, before.newT) && IdsOk(before.infos, before.idCount)
    ensures forall a :: a in before.byAddr && a !in after.byAddr ==>
      && a != addr.service.ip && before.byAddr[a] in before.infos
      && var info := before.infos[before.byAddr[a]];
         !info.inTried && info.refCount == 1 && IsTerrible(info, now)
  {
    forall a | a in before.byAddr && a !in after.byAddr
      ensures a != addr.service.ip && before.byAddr[a] in before.infos
      ensures var info := before.infos[before.byAddr[a]];
        !info.inTried && info.refCount == 1 && IsTerrible(info, now)
    {
      var k := before.byAddr[a];
      assert k in before.infos && before.infos[k].address.service.ip == a;
      assert k in mid.infos && mid.infos[k].address.service == before.infos[k].address.service;
      assert k !in after.infos;
      assert k != id;
      assert mid.infos[k] == before.infos[k];
    }
  }

  /** A first-time offer leaves the occupant of every new slot as it was. */
  lemma OccupantUntouched(before: Model, mid: Model, id: int, addr: Address, source: NetAddr, penalty: int, now: int, s: Slot)
    requires Offered(before, mid, id, addr, source, penalty, now) && addr.service.ip !in before.byAddr
    requires NewSlotsOk(before.hashing, before.key, before.infos, before.newT) && IdsOk(before.infos, before.idCount)
    ensures id !in before.infos && mid.infos[id].address.service == addr.service && mid.infos[id].refCount == 0
    ensures s in before.newT ==>
      && before.newT[s] != id && before.newT[s] in before.infos && before.newT[s] in mid.infos
      && mid.infos[before.newT[s]] == before.infos[before.newT[s]]
  {
    if s in before.newT {
      var k := before.newT[s];
      assert k in before.infos && k < before.idCount;
    }
  }

  /** After a first-time offer the address is known exactly when its entry survived. */
  lemma NewcomerId(before: Model, mid: Model, after: Model, id: int, addr: Address, source: NetAddr, penalty: int, now: int)
    requires AddrOk(before.infos, before.byAddr) && AddrOk(after.infos, after.byAddr)
    requires Offered(before, mid, id, addr, source, penalty, now) && EnteredNew(mid, after, id, source, now)
    requires addr.service.ip !in before.byAddr
    ensures addr.service.ip in after.byAddr ==> after.byAddr[addr.service.ip] == id && id in after.infos
    ensures id in after.infos ==> addr.service.ip in after.byAddr && after.byAddr[addr.service.ip] == id
  {
    hide EnteredNew;
    OfferedSelf(mid, after, id, source, now);
    if addr.service.ip in after.byAddr {
      var k := after.byAddr[addr.service.ip];
      if k != id {
        OfferedOld(before, mid, after, id, addr, source, penalty, now, k);
        assert false;
      }
    }
  }

  lemma NewcomerStays(before: Model, mid: Model, after: Model, id: int, addr: Address, source: NetAddr, penalty: int, now: int,
                      draw: nat)
    requires AddrOk(before.infos, before.byAddr) && AddrOk(after.infos, after.byAddr)
    requires Offered(before, mid, id, addr, source, penalty, now) && EnteredNew(mid, after, id, source, now)
    requires NewSlotsOk(before.hashing, before.key, before.infos, before.newT) && IdsOk(before.infos, before.idCount)
    requires addr.service.ip !in before.byAddr
    ensures Heard(before, after, addr, source, penalty, now, draw)
  {
    OfferedSelf(mid, after, id, source, now);
    NewcomerId(before, mid, after, id, addr, source, penalty, now);
    OccupantUntouched(before, mid, id, addr, source, penalty, now, SourceSlot(before, addr.service, source));
    hide AddrOk, NewSlotsOk, IdsOk, IsTerrible, NewBucket;
  }

  ghost predicate Offerable(infos: map<int, Info>, a: Address, now: int) {
    exists id :: id in infos && infos[id].address == a && !IsTerrible(infos[id], now)
  }

  /** `addrs` lists the addresses of the entries in `ids` that are not terrible, in order. */
  ghost predicate Drawn(infos: map<int, Info>, ids: seq<int>, addrs: seq<Address>, now: int)
    decreases |ids|
  {
    if ids == [] then addrs == []
    else
      var last := ids[|ids| - 1];
      last in infos &&
      if IsTerrible(infos[last], now) then Drawn(infos, ids[..|ids| - 1], addrs, now)
      else addrs != [] && addrs[|addrs| - 1] == infos[last].address
           && Drawn(infos, ids[..|ids| - 1], addrs[..|addrs| - 1], now)
  }

  lemma SameInfosRefl(infos: map<int, Info>)
    ensures SameInfosButPos(infos, infos)
  {
  }

  lemma SameInfosTrans(a: map<int, Info>, b: map<int, Info>, c: map<int, Info>)
    requires SameInfosButPos(a, b) && SameInfosButPos(b, c)
    ensures SameInfosButPos(a, c)
  {
  }

  lemma DrawnNothing(infos: map<int, Info>, now: int)
    ensures Drawn(infos, [], [], now)
  {
  }

  lemma SwapValid(m: Model, n: Model, first: map<int, Info>, collisions: set<int>)
    requires Consistent(m, {}, {}) && CollisionsOk(m, collisions) && SameInfosButPos(m.infos, first)
    requires n == m.(infos := n.infos, order := n.order) && SameInfosButPos(n.infos, m.infos) && OrderOk(n.infos, n.order)
    ensures Consistent(n, {}, {}) && CollisionsOk(n, collisions) && SameInfosButPos(n.infos, first)
  {
    hide IdsOk, AddrOk, OrderOk, CountsOk, NewSlotsOk, RefsOk, TriedOk;
    TouchKeeps(m, n, {}, {});
  }

  lemma {:induction false} DrawnFrame(a: map<int, Info>, b: map<int, Info>, ids: seq<int>, addrs: seq<Address>, now: int)
    requires Drawn(a, ids, addrs, now) && SameInfosButPos(b, a)
    ensures Drawn(b, ids, addrs, now)
    decreases |ids|
  {
    if ids != [] {
      var last := ids[|ids| - 1];
      assert last in b.Keys;
      assert IsTerrible(a[last], now) == IsTerrible(b[last], now);
      if IsTerrible(a[last], now) {
        DrawnFrame(a, b, ids[..|ids| - 1], addrs, now);
      } else {
        DrawnFrame(a, b, ids[..|ids| - 1], addrs[..|addrs| - 1], now);
      }
    }
  }

  lemma DrawnStep(a: map<int, Info>, b: map<int, Info>, ids: seq<int>, id: int, addrs: seq<Address>, now: int)
    requires Drawn(a, ids, addrs, now) && SameInfosButPos(b, a) && id in b
    ensures Drawn(b, ids + [id], if IsTerrible(b[id], now) then addrs else addrs + [b[id].address], now)
  {
    DrawnFrame(a, b, ids, addrs, now);
    assert (ids + [id])[..|ids + [id]| - 1] == ids;
    var more := addrs + [b[id].address];
    assert more[..|more| - 1] == addrs;
  }

  lemma {:induction false} DrawnMember(infos: map<int, Info>, ids: seq<int>, addrs: seq<Address>, now: int, id: int)
    requires Drawn(infos, ids, addrs, now) && id in ids && id in infos && !IsTerrible(infos[id], now)
    ensures infos[id].address in addrs
    decreases |ids|
  {
    var last := ids[|ids| - 1];
    var rest := ids[..|ids| - 1];
    assert ids == rest + [last];
    if id != last {
      if IsTerrible(infos[last], now) {
        DrawnMember(infos, rest, addrs, now, id);
      } else {
        DrawnMember(infos, rest, addrs[..|addrs| - 1], now, id);
      }
    }
  }

  /** Each address drawn belongs to an id of the prefix. */
  lemma {:induction false} DrawnOrigin(infos: map<int, Info>, ids: seq<int>, addrs: seq<Address>, now: int, i: int)
      returns (k: int)
    requires Drawn(infos, ids, addrs, now) && 0 <= i < |addrs|
    ensures 0 <= k < |ids| && ids[k] in infos && infos[ids[k]].address == addrs[i] && !IsTerrible(infos[ids[k]], now)
    ensures forall j :: i < j < |addrs| ==> exists l :: k < l < |ids| && ids[l] in infos && infos[ids[l]].address == addrs[j]
    decreases |ids|
  {
    var last := ids[|ids| - 1];
    var rest := ids[..|ids| - 1];
    if IsTerrible(infos[last], now) {
      k := DrawnOrigin(infos, rest, addrs, now, i);
    } else if i == |addrs| - 1 {
      k := |ids| - 1;
    } else {
      k := DrawnOrigin(infos, rest, addrs[..|addrs| - 1], now, i);
      forall j | i < j < |addrs|
        ensures exists l :: k < l < |ids| && ids[l] in infos && infos[ids[l]].address == addrs[j]
      {
        if j == |addrs| - 1 {
          assert ids[|ids| - 1] in infos && infos[ids[|ids| - 1]].address == addrs[j];
        } else {
          assert addrs[..|addrs| - 1][j] == addrs[j];
          var l :| k < l < |rest| && rest[l] in infos && infos[rest[l]].address == addrs[..|addrs| - 1][j];
          assert ids[l] == rest[l];
        }
      }
    }
  }

  lemma DrawnAll(m: Model, addrs: seq<Address>, now: int)
    requires Consistent(m, {}, {}) && Drawn(m.infos, m.order, addrs, now)
    ensures forall id :: id in m.infos && !IsTerrible(m.infos[id], now) ==> m.infos[id].address in addrs
  {
    hide IdsOk, AddrOk, CountsOk, NewSlotsOk, RefsOk, TriedOk;
    forall id | id in m.infos && !IsTerrible(m.infos[id], now)
      ensures m.infos[id].address in addrs
    {
      assert m.order[m.infos[id].randomPos] == id;
      DrawnMember(m.infos, m.order, addrs, now, id);
    }
  }

  lemma DrawnDistinct(m: Model, ids: seq<int>, addrs: seq<Address>, now: int)
    requires Consistent(m, {}, {}) && ids <= m.order && Drawn(m.infos, ids, addrs, now)
    ensures forall a :: a in addrs ==> Offerable(m.infos, a, now)
    ensures forall i, j :: 0 <= i < j < |addrs| ==> addrs[i].service.ip != addrs[j].service.ip
  {
    hide IdsOk, CountsOk, NewSlotsOk, RefsOk, TriedOk;
    forall i | 0 <= i < |addrs|
      ensures Offerable(m.infos, addrs[i], now)
      ensures forall j :: i < j < |addrs| ==> addrs[i].service.ip != addrs[j].service.ip
    {
      var k := DrawnOrigin(m.infos, ids, addrs, now, i);
      var id := ids[k];
      assert id == m.order[k];
      assert id in m.infos;
      forall j | i < j < |addrs|
        ensures addrs[i].service.ip != addrs[j].service.ip
      {
        var l :| k < l < |ids| && ids[l] in m.infos && m.infos[ids[l]].address == addrs[j];
        var other := ids[l];
        assert other == m.order[l];
        assert m.infos[id].randomPos == k && m.infos[other].randomPos == l;
      }
    }
  }

  /** The clock, read in turn while one collision is resolved. */
  datatype Readings = Readings(first: int, second: int, third: int, last: int)

  /** The readings for each recorded collision. */
  type Clock = int -> Readings

  /** The occupant of a tried slot had its chance: no success in the last hours, and a failed attempt more than a minute ago. */
  ghost predicate Replaceable(info: Info, now: Readings) {
    && now.first - info.lastSuccess >= REPLACEMENT_HOURS * 60 * 60
    && now.second - info.lastTry < REPLACEMENT_HOURS * 60 * 60
    && now.third - info.lastTry > 60
  }

  /** `info` is a tried entry in the slot of a recorded collision. */
  ghost predicate StandsInTheWay(m: Model, collisions: set<int>, info: Info) {
    exists id, k :: id in collisions && id in m.infos && InTheWay(m, id, k)
                    && k in m.infos && m.infos[k].inTried && info == m.infos[k]
  }

  ghost predicate Beaten(m: Model, id: int, now: Readings) {
    id in m.infos &&
    forall k :: InTheWay(m, id, k) ==> k in m.infos && Replaceable(m.infos[k], now)
  }

  /** The collision of `id` is settled: the entry is gone or not valid any more, or whoever stands in its way has proved
      itself in the last hours or had its chance. */
  ghost predicate Decided(m: Model, isValid: NetAddr -> bool, id: int, now: Readings) {
    id in m.infos && isValid(m.infos[id].address.service.ip) ==>
      forall k :: InTheWay(m, id, k) ==>
        k in m.infos && (now.first - m.infos[k].lastSuccess < REPLACEMENT_HOURS * 60 * 60 || Replaceable(m.infos[k], now))
  }

  ghost predicate Wins(m: Model, isValid: NetAddr -> bool, id: int, now: Readings) {
    Beaten(m, id, now) && isValid(m.infos[id].address.service.ip)
  }

  lemma WinsBeats(m: Model, isValid: NetAddr -> bool, id: int, now: Readings)
    requires Wins(m, isValid, id, now)
    ensures Beaten(m, id, now) && id in m.infos
  {
  }

  /** The time is that of the last reading for one of the records. */
  ghost predicate Stamped(clock: Clock, recorded: set<int>, time: int) {
    exists id :: id in recorded && clock(id).last == time
  }

  /** The entry was replaceable when one of the records had its turn. */
  ghost predicate HadItsChance(clock: Clock, recorded: set<int>, info: Info) {
    exists id :: id in recorded && Replaceable(info, clock(id))
  }

  /** Every time that resolving the records can write is positive. */
  ghost predicate AllPositive(clock: Clock, recorded: set<int>) {
    forall id :: id in recorded ==> clock(id).last > 0
  }

  /** Between two moments of one call: who is tried now succeeded in between or was tried before with the same record, and
      who is not tried with the same record any more was replaceable in between. */
  ghost predicate FairlyReplaced(before: map<int, Info>, after: map<int, Info>, clock: Clock, recorded: set<int>) {
    && (forall k :: k in after && after[k].inTried ==>
          Stamped(clock, recorded, after[k].lastSuccess) || (k in before && before[k].inTried && SamePeer(after[k], before[k])))
    && (forall k :: k in before && before[k].inTried ==>
          (k in after && after[k].inTried && SamePeer(after[k], before[k])) || HadItsChance(clock, recorded, before[k]))
  }

  lemma FairlyReplacedRefl(infos: map<int, Info>, clock: Clock, recorded: set<int>)
    ensures FairlyReplaced(infos, infos, clock, recorded)
  {
  }

  lemma HasChance(clock: Clock, recorded: set<int>, id: int, info: Info, was: Info)
    requires id in recorded && Replaceable(info, clock(id)) && SamePeer(info, was)
    ensures HadItsChance(clock, recorded, was)
  {
    assert Replaceable(was, clock(id));
  }

  lemma ResolveStep(first: map<int, Info>, m: Model, n: Model, id: int, clock: Clock, recorded: set<int>)
    requires Consistent(m, {}, {}) && FairlyReplaced(first, m.infos, clock, recorded)
    requires id in recorded && Beaten(m, id, clock(id))
    requires GoodEffect(m, n, {}, {}, m.infos[id].address.service, false, clock(id).last)
    ensures FairlyReplaced(first, n.infos, clock, recorded)
  {
    hide IdsOk, OrderOk, CountsOk, NewSlotsOk, RefsOk, MadeTried, HadItsChance, Stamped, Replaceable, TriedSlot;
    var now := clock(id).last;
    var service := m.infos[id].address.service;
    assert m.byAddr[service.ip] == id;
    var info := m.infos[id].(lastSuccess := now, lastTry := now, attempts := 0);
    var touched := Touched(m, id, info);
    StampedNow(clock, recorded, id);
    if info.inTried {
      assert InTheWay(m, id, id);
      if id in first && first[id].inTried && SamePeer(m.infos[id], first[id]) {
        HasChance(clock, recorded, id, m.infos[id], first[id]);
      }
    } else {
      hide TriedOk;
      TouchValid(m, id, info, {});
      MadeTriedFacts(touched, n, id);
      MadeTriedSelf(touched, n, id);
      forall k | k in first && first[k].inTried
        ensures (k in n.infos && n.infos[k].inTried && SamePeer(n.infos[k], first[k])) || HadItsChance(clock, recorded, first[k])
      {
        if k in m.infos && m.infos[k].inTried && SamePeer(m.infos[k], first[k]) {
          assert k in touched.infos && touched.infos[k].inTried;
          if !n.infos[k].inTried {
            assert InTheWay(touched, id, k);
            assert InTheWay(m, id, k);
            HasChance(clock, recorded, id, m.infos[k], first[k]);
          }
        }
      }
    }
  }

  lemma StampedNow(clock: Clock, recorded: set<int>, id: int)
    requires id in recorded
    ensures Stamped(clock, recorded, clock(id).last)
  {
  }

  /** No tried slot becomes empty. */
  ghost predicate SlotsKept(m: Model, n: Model) {
    n.hashing == m.hashing && n.key == m.key && forall s :: s in m.triedT ==> s in n.triedT
  }

  lemma SlotsKeptRefl(m: Model)
    ensures SlotsKept(m, m)
  {
  }

  lemma SlotsKeptStep(first: Model, m: Model, n: Model, addr: Service, now: int)
    requires SlotsKept(first, m) && GoodEffect(m, n, {}, {}, addr, false, now) && n.hashing == m.hashing && n.key == m.key
    ensures SlotsKept(first, n)
  {
    hide Evicted;
  }

  lemma SlotsKeptAll(m: Model, n: Model)
    requires SlotsKept(m, n)
    ensures forall s :: s in m.triedT ==> s in n.triedT
  {
  }

  lemma Inhabited(s: set<int>)
    requires |s| > 0
    ensures exists x :: x in s
  {
    assert (forall x :: x !in s) ==> s == {};
  }

  lemma CollisionErased(m: Model, collisions: set<int>, id: int)
    requires CollisionsOk(m, collisions) && id in collisions
    ensures CollisionsOk(m, collisions - {id})
  {
  }

  lemma ErasedIfOk(m: Model, collisions: set<int>, id: int)
    requires id in collisions
    ensures CollisionsOk(m, collisions) ==> CollisionsOk(m, collisions - {id})
  {
    if CollisionsOk(m, collisions) {
      CollisionErased(m, collisions, id);
    }
  }

  /** A default-constructed entry. */
  const NULL_INFO := Info(Address(Service(0, 0), 0, 100000000), 0, 0, 0, 0, 0, 0, false, -1)

  lemma NoNullEntry(m: Model)
    requires Consistent(m, {}, {})
    ensures -1 !in m.infos
  {
    hide AddrOk, OrderOk, CountsOk, NewSlotsOk, RefsOk, TriedOk;
  }

  /** Some recorded collision has an entry whose tried slot is empty. */
  ghost predicate FacesNobody(m: Model, collisions: set<int>) {
    exists id :: id in collisions && id in m.infos && TriedSlot(m.hashing, m.key, m.infos[id].address.service) !in m.triedT
  }

  lemma {:induction false} HasLeast(s: set<int>)
    requires |s| > 0
    ensures exists x :: x in s && forall y :: y in s ==> x <= y
    decreases |s|
  {
    Inhabited(s);
    var x :| x in s;
    var rest := s - {x};
    if |rest| == 0 {
      assert s == {x};
    } else {
      HasLeast(rest);
      var y :| y in rest && forall z :: z in rest ==> y <= z;
      assert s == rest + {x};
      assert forall z :: z in s ==> (if x < y then x else y) <= z;
    }
  }

  /** What resolving the collision of `id` does to the state: a winner becomes good, whoever stood in its way gives way. */
  ghost predicate Resolves(m: Model, n: Model, isValid: NetAddr -> bool, id: int, now: Readings) {
    if Wins(m, isValid, id, now) then GoodEffect(m, n, {}, {}, m.infos[id].address.service, false, now.last) else n == m
  }

  /** The collisions `ids` were resolved one after the other: each step resolves one of them, in ascending order, and leaves
      recorded, of those that were before, exactly the others and those that were not decided when their turn came. */
  ghost predicate Resolving(isValid: NetAddr -> bool, ids: seq<int>, states: seq<Model>, before: set<int>, after: set<int>,
                            clock: Clock)
  {
    && |states| == |ids| + 1
    && (forall i :: 0 <= i < |ids| ==> ids[i] in before && Resolves(states[i], states[i + 1], isValid, ids[i], clock(ids[i])))
    && (forall i :: 0 < i < |ids| ==> ids[i - 1] < ids[i])
    && (forall i :: 0 <= i < |ids| ==> (ids[i] in after <==> !Decided(states[i], isValid, ids[i], clock(ids[i]))))
    && after <= before && (forall id :: id in before && id !in ids ==> id in after)
  }

  /** What is left to resolve: the rest of the records, all above those resolved. */
  ghost predicate Remaining(ids: seq<int>, before: set<int>, todo: set<int>) {
    && (forall id :: id in before <==> id in ids || id in todo)
    && (forall i, id :: 0 <= i < |ids| && id in todo ==> ids[i] < id)
  }

  lemma ResolvingStart(isValid: NetAddr -> bool, m: Model, collisions: set<int>, clock: Clock)
    ensures Resolving(isValid, [], [m], collisions, collisions, clock) && Remaining([], collisions, collisions)
  {
  }

  lemma ResolvingNext(isValid: NetAddr -> bool, ids: seq<int>, states: seq<Model>, before: set<int>, kept: set<int>,
                      after: set<int>, id: int, rest: set<int>, n: Model, clock: Clock)
    requires Resolving(isValid, ids, states, before, kept, clock) && Remaining(ids, before, rest + {id})
    requires id in kept && id !in rest && forall x :: x in rest ==> id <= x
    requires Resolves(states[|ids|], n, isValid, id, clock(id))
    requires after == if Decided(states[|ids|], isValid, id, clock(id)) then kept - {id} else kept
    ensures Resolving(isValid, ids + [id], states + [n], before, after, clock) && Remaining(ids + [id], before, rest)
  {
    hide Resolves, Decided;
    var (ids', states') := (ids + [id], states + [n]);
    forall i | 0 <= i < |ids'|
      ensures ids'[i] in before && Resolves(states'[i], states'[i + 1], isValid, ids'[i], clock(ids'[i]))
      ensures ids'[i] in after <==> !Decided(states'[i], isValid, ids'[i], clock(ids'[i]))
    {
      if i < |ids| {
        assert ids[i] < id;
      }
    }
    forall x | x in before && x !in ids' ensures x in after {
      assert x !in ids;
    }
    forall x ensures x in before <==> x in ids' || x in rest {
      assert x in rest + {id} <==> x in rest || x == id;
    }
  }

  lemma ResolvingAll(ids: seq<int>, before: set<int>)
    requires Remaining(ids, before, {})
    ensures forall id :: id in before ==> id in ids
  {
  }

  /** If nobody wins at the outset the state never changes, so the records dropped are those decided at the outset. */
  lemma ResolvedQuietly(isValid: NetAddr -> bool, ids: seq<int>, states: seq<Model>, before: set<int>, after: set<int>,
                        clock: Clock)
    requires Resolving(isValid, ids, states, before, after, clock) && forall id :: id in before ==> id in ids
    ensures (forall id :: id in before ==> !Wins(states[0], isValid, id, clock(id))) ==>
      && states[|ids|] == states[0]
      && forall id :: id in before ==> (id in after <==> !Decided(states[0], isValid, id, clock(id)))
  {
    hide Wins, Decided, GoodEffect;
    if forall id :: id in before ==> !Wins(states[0], isValid, id, clock(id)) {
      for i := 0 to |ids|
        invariant forall j :: 0 <= j <= i ==> states[j] == states[0]
      {
        assert Resolves(states[i], states[i + 1], isValid, ids[i], clock(ids[i]));
      }
    }
  }

  /** The public calls. */
  datatype Op =
    | OpAdd(addr: Address, source: NetAddr, timePenalty: int, now: int, draw: nat)
    | OpGood(service: Service, testBeforeEvict: bool, time: int)
    | OpAttempt(service: Service, countFailure: bool, time: int)
    | OpConnected(service: Service, time: int)
    | OpSetServices(service: Service, services: bv64)
    | OpGetAddr(now: int)
    | OpResolve(clock: Clock)
    | OpSelect

  /** The times that end up in an entry's record are positive. */
  ghost predicate PositiveTimes(op: Op) {
    match op
    case OpGood(_, _, time) => time > 0
    case OpAttempt(_, _, time) => time > 0
    case OpResolve(clock) => forall id :: clock(id).last > 0
    case _ => true
  }

  lemma GoodKeepsSlots(before: Model, after: Model, collisions: set<int>, collisionsAfter: set<int>,
                       addr: Service, testBeforeEvict: bool, time: int)
    requires GoodEffect(before, after, collisions, collisionsAfter, addr, testBeforeEvict, time)
    ensures forall s :: s in before.triedT ==> s in after.triedT
  {
    hide Evicted;
  }

  lemma SamePosTimes(a: map<int, Info>, b: map<int, Info>)
    requires SameInfosButPos(b, a)
    ensures TimesOk(a) ==> TimesOk(b)
  {
    forall id | id in b
      ensures id in a && b[id].lastTry == a[id].lastTry && b[id].lastSuccess == a[id].lastSuccess
      ensures b[id].inTried == a[id].inTried
    {
      assert id in b.Keys;
    }
  }

  lemma EmptyIsConsistent(m: Model)
    requires m.infos == map[] && m.byAddr == map[] && m.order == [] && m.idCount == 0 && m.nNew == 0 && m.nTried == 0
    requires m.newT == map[] && m.triedT == map[]
    ensures Consistent(m, {}, {})
  {
    assert TriedIds(m.infos) == {} && NewIds(m.infos) == {};
  }

  /** With no id handed out, any recorded collision is stale. */
  lemma NoCollisions(m: Model, collisions: set<int>)
    requires m.idCount == 0 && m.infos == map[]
    ensures CollisionsOk(m, collisions) <==> collisions == {}
  {
    assert (forall id :: id !in collisions) ==> collisions == {};
  }

  // ----- the source's own consistency check, as a condition on the state -----

  /** Reading a missing key yields zero. */
  function Lookup(byAddr: map<NetAddr, int>, a: NetAddr): int {
    if a in byAddr then byAddr[a] else 0
  }

  ghost predicate EntryPasses(infos: map<int, Info>, byAddr: map<NetAddr, int>, order: seq<int>, id: int)
    requires id in infos
  {
    var info := infos[id];
    && (if info.inTried then info.lastSuccess != 0 && info.refCount == 0
        else 0 < info.refCount <= NEW_BUCKETS_PER_ADDRESS)
    && Lookup(byAddr, info.address.service.ip) == id
    && 0 <= info.randomPos < |order| && order[info.randomPos] == id
    && info.lastTry >= 0 && info.lastSuccess >= 0
  }

  ghost predicate EntriesPass(infos: map<int, Info>, byAddr: map<NetAddr, int>, order: seq<int>) {
    forall id :: id in infos ==> EntryPasses(infos, byAddr, order, id)
  }

  ghost function RefCounts(infos: map<int, Info>): map<int, int> {
    map id | id in NewIds(infos) :: infos[id].refCount
  }

  ghost predicate EntriesScan(infos: map<int, Info>, byAddr: map<NetAddr, int>, order: seq<int>, done: set<int>,
                              tried: set<int>, refs: map<int, int>)
  {
    && done <= infos.Keys
    && (forall id :: id in done ==> id in infos && EntryPasses(infos, byAddr, order, id))
    && tried == TriedIds(infos) * done
    && refs == map id | id in NewIds(infos) * done :: infos[id].refCount
  }

  lemma EntriesScanStart(infos: map<int, Info>, byAddr: map<NetAddr, int>, order: seq<int>)
    ensures EntriesScan(infos, byAddr, order, infos.Keys - infos.Keys, {}, map[])
  {
  }

  lemma EntriesScanStep(infos: map<int, Info>, byAddr: map<NetAddr, int>, order: seq<int>, done: set<int>,
                        tried: set<int>, refs: map<int, int>, n: int)
    requires EntriesScan(infos, byAddr, order, done, tried, refs)
    requires n in infos && n !in done && EntryPasses(infos, byAddr, order, n)
    ensures EntriesScan(infos, byAddr, order, done + {n},
                        if infos[n].inTried then tried + {n} else tried,
                        if infos[n].inTried then refs else refs[n := infos[n].refCount])
  {
    hide EntryPasses;
    if infos[n].inTried {
      assert TriedIds(infos) * (done + {n}) == tried + {n};
      assert NewIds(infos) * (done + {n}) == NewIds(infos) * done;
    } else {
      assert TriedIds(infos) * (done + {n}) == tried;
      assert NewIds(infos) * (done + {n}) == NewIds(infos) * done + {n};
    }
  }

  lemma EntriesScanEnd(infos: map<int, Info>, byAddr: map<NetAddr, int>, order: seq<int>, tried: set<int>, refs: map<int, int>)
    requires EntriesScan(infos, byAddr, order, infos.Keys, tried, refs)
    ensures EntriesPass(infos, byAddr, order) && tried == TriedIds(infos) && refs == RefCounts(infos)
  {
    hide EntryPasses;
    assert TriedIds(infos) * infos.Keys == TriedIds(infos);
    assert NewIds(infos) * infos.Keys == NewIds(infos);
  }

  /** Slot `s` comes before position `i` of bucket `n` in a scan. */
  predicate Before(s: Slot, n: int, i: int) {
    s.0 < n || (s.0 == n && s.1 < i)
  }

  ghost function Met(t: Table, n: int, i: int): set<int> {
    set s | s in t && Before(s, n, i) :: t[s]
  }

  ghost predicate TriedScan(m: Model, n: int, i: int, left: set<int>) {
    && (forall s :: s in m.triedT ==> 0 <= s.0 < TRIED_BUCKET_COUNT && 0 <= s.1 < BUCKET_SIZE)
    && (forall s :: s in m.triedT && Before(s, n, i) ==>
          m.triedT[s] in m.infos && m.infos[m.triedT[s]].inTried
          && s == TriedSlot(m.hashing, m.key, m.infos[m.triedT[s]].address.service))
    && left == TriedIds(m.infos) - Met(m.triedT, n, i)
  }

  lemma TriedScanStart(m: Model)
    requires forall s :: s in m.triedT ==> 0 <= s.0 < TRIED_BUCKET_COUNT && 0 <= s.1 < BUCKET_SIZE
    ensures TriedScan(m, 0, 0, TriedIds(m.infos))
  {
    assert Met(m.triedT, 0, 0) == {};
  }

  lemma TriedScanNextBucket(m: Model, n: int, left: set<int>)
    requires TriedScan(m, n, BUCKET_SIZE, left)
    ensures TriedScan(m, n + 1, 0, left)
  {
    assert Met(m.triedT, n, BUCKET_SIZE) == Met(m.triedT, n + 1, 0);
  }

  lemma TriedScanKnown(m: Model, n: int, i: int, left: set<int>, id: int)
    requires TriedScan(m, n, i, left) && id in left
    ensures id in m.infos
  {
  }

  lemma TriedScanStep(m: Model, n: int, i: int, left: set<int>)
    requires TriedScan(m, n, i, left)
    ensures (n, i) !in m.triedT ==> TriedScan(m, n, i + 1, left)
    ensures (n, i) in m.triedT ==>
      var id := m.triedT[(n, i)];
      if id in left && id in m.infos && (n, i) == TriedSlot(m.hashing, m.key, m.infos[id].address.service)
      then TriedScan(m, n, i + 1, left - {id})
      else !TriedOk(m.hashing, m.key, m.infos, m.triedT)
  {
    if (n, i) !in m.triedT {
      assert Met(m.triedT, n, i + 1) == Met(m.triedT, n, i);
    } else {
      var id := m.triedT[(n, i)];
      forall s | s in m.triedT && Before(s, n, i + 1)
        ensures s == (n, i) || Before(s, n, i)
      {
      }
      assert Met(m.triedT, n, i + 1) == Met(m.triedT, n, i) + {id};
    }
  }

  lemma TriedScanEnd(m: Model, left: set<int>)
    requires TriedScan(m, TRIED_BUCKET_COUNT, 0, left)
    ensures left == {} <==> TriedOk(m.hashing, m.key, m.infos, m.triedT)
  {
    var t := m.triedT;
    forall id | id in m.infos && m.infos[id].inTried
      ensures id !in left <==>
        TriedSlot(m.hashing, m.key, m.infos[id].address.service) in t
        && t[TriedSlot(m.hashing, m.key, m.infos[id].address.service)] == id
    {
      if id !in left {
        var s :| s in t && t[s] == id;
      }
    }
    assert (forall id :: id !in left) ==> left == {};
  }

  ghost function MetSlots(t: Table, n: int, i: int, id: int): set<Slot> {
    set s | s in t && t[s] == id && Before(s, n, i)
  }

  /** The new table agrees with the entries: slots hold untried entries at their positions and reference counts are exact. */
  ghost predicate NewTableOk(m: Model) {
    && NewSlotsOk(m.hashing, m.key, m.infos, m.newT)
    && forall id :: id in NewIds(m.infos) ==> m.infos[id].refCount == |SlotsOf(m.newT, id)|
  }

  ghost predicate NewScan(m: Model, n: int, i: int, left: map<int, int>) {
    && (forall s :: s in m.newT ==> 0 <= s.0 < NEW_BUCKET_COUNT && 0 <= s.1 < BUCKET_SIZE)
    && (forall s :: s in m.newT && Before(s, n, i) ==>
          m.newT[s] in NewIds(m.infos) && s == NewSlot(m.hashing, m.key, s.0, m.infos[m.newT[s]].address.service))
    && (forall id :: id in NewIds(m.infos) ==> |MetSlots(m.newT, n, i, id)| <= m.infos[id].refCount)
    && left == LeftOver(m, n, i)
  }

  /** The references of each untried entry that a scan up to position `i` of bucket `n` has not met. */
  ghost function LeftOver(m: Model, n: int, i: int): map<int, int> {
    map id | id in NewIds(m.infos) && |MetSlots(m.newT, n, i, id)| < m.infos[id].refCount
      :: m.infos[id].refCount - |MetSlots(m.newT, n, i, id)|
  }

  lemma LeftOverSame(m: Model, n: int, i: int, n': int, i': int)
    requires forall id :: MetSlots(m.newT, n, i, id) == MetSlots(m.newT, n', i', id)
    ensures LeftOver(m, n, i) == LeftOver(m, n', i')
  {
  }

  lemma LeftOverStep(m: Model, n: int, i: int, id: int)
    requires id in LeftOver(m, n, i)
    requires |MetSlots(m.newT, n, i + 1, id)| == |MetSlots(m.newT, n, i, id)| + 1
    requires forall k :: k != id ==> MetSlots(m.newT, n, i + 1, k) == MetSlots(m.newT, n, i, k)
    ensures LeftOver(m, n, i + 1) == OneLess(LeftOver(m, n, i), id)
  {
    var next := OneLess(LeftOver(m, n, i), id);
    var expected := LeftOver(m, n, i + 1);
    forall k
      ensures k in next <==> k in expected
      ensures k in next ==> next[k] == expected[k]
    {
      if k != id {
        assert k in LeftOver(m, n, i) <==> k in expected;
      }
    }
  }

  lemma NewScanStart(m: Model)
    requires forall s :: s in m.newT ==> 0 <= s.0 < NEW_BUCKET_COUNT && 0 <= s.1 < BUCKET_SIZE
    requires EntriesPass(m.infos, m.byAddr, m.order)
    ensures NewScan(m, 0, 0, RefCounts(m.infos))
  {
    forall id
      ensures MetSlots(m.newT, 0, 0, id) == {}
    {
    }
  }

  lemma NewScanNextBucket(m: Model, n: int, left: map<int, int>)
    requires NewScan(m, n, BUCKET_SIZE, left)
    ensures NewScan(m, n + 1, 0, left)
  {
    hide LeftOver;
    forall id
      ensures MetSlots(m.newT, n, BUCKET_SIZE, id) == MetSlots(m.newT, n + 1, 0, id)
    {
    }
    LeftOverSame(m, n, BUCKET_SIZE, n + 1, 0);
  }

  lemma NewScanKnown(m: Model, n: int, i: int, left: map<int, int>, id: int)
    requires NewScan(m, n, i, left) && id in left
    ensures id in m.infos
  {
  }

  /** One reference of `id` found; the id is dropped with its last one. */
  function OneLess(left: map<int, int>, id: int): map<int, int>
    requires id in left
  {
    if left[id] - 1 == 0 then left - {id} else left[id := left[id] - 1]
  }

  lemma NewScanSkip(m: Model, n: int, i: int, left: map<int, int>)
    requires NewScan(m, n, i, left) && (n, i) !in m.newT
    ensures NewScan(m, n, i + 1, left)
  {
    hide LeftOver;
    forall s | s in m.newT && Before(s, n, i + 1)
      ensures Before(s, n, i)
    {
    }
    forall id
      ensures MetSlots(m.newT, n, i, id) == MetSlots(m.newT, n, i + 1, id)
    {
    }
    LeftOverSame(m, n, i, n, i + 1);
  }

  lemma MetSlotsStep(t: Table, n: int, i: int)
    requires (n, i) in t
    ensures MetSlots(t, n, i + 1, t[(n, i)]) == MetSlots(t, n, i, t[(n, i)]) + {(n, i)}
    ensures (n, i) !in MetSlots(t, n, i, t[(n, i)])
    ensures forall id :: id != t[(n, i)] ==> MetSlots(t, n, i + 1, id) == MetSlots(t, n, i, id)
    ensures forall s :: s in t && Before(s, n, i + 1) ==> s == (n, i) || Before(s, n, i)
  {
    forall s | s in t && Before(s, n, i + 1)
      ensures s == (n, i) || Before(s, n, i)
    {
    }
    forall id | id != t[(n, i)]
      ensures MetSlots(t, n, i + 1, id) == MetSlots(t, n, i, id)
    {
    }
  }

  lemma NewScanTake(m: Model, n: int, i: int, left: map<int, int>)
    requires NewScan(m, n, i, left) && (n, i) in m.newT
    requires var id := m.newT[(n, i)];
      id in left && id in m.infos && (n, i) == NewSlot(m.hashing, m.key, n, m.infos[id].address.service)
    ensures NewScan(m, n, i + 1, OneLess(left, m.newT[(n, i)]))
  {
    var id := m.newT[(n, i)];
    MetSlotsStep(m.newT, n, i);
    assert |MetSlots(m.newT, n, i + 1, id)| == |MetSlots(m.newT, n, i, id)| + 1;
    forall k | k in NewIds(m.infos)
      ensures |MetSlots(m.newT, n, i + 1, k)| <= m.infos[k].refCount
    {
    }
    forall s | s in m.newT && Before(s, n, i + 1)
      ensures m.newT[s] in NewIds(m.infos) && s == NewSlot(m.hashing, m.key, s.0, m.infos[m.newT[s]].address.service)
    {
    }
    LeftOverStep(m, n, i, id);
  }

  lemma NewScanStep(m: Model, n: int, i: int, left: map<int, int>)
    requires NewScan(m, n, i, left)
    ensures (n, i) !in m.newT ==> NewScan(m, n, i + 1, left)
    ensures (n, i) in m.newT ==>
      var id := m.newT[(n, i)];
      if id in left && id in m.infos && (n, i) == NewSlot(m.hashing, m.key, n, m.infos[id].address.service)
      then NewScan(m, n, i + 1, OneLess(left, id))
      else !NewTableOk(m)
  {
    if (n, i) !in m.newT {
      NewScanSkip(m, n, i, left);
    } else {
      var id := m.newT[(n, i)];
      if id in left && id in m.infos && (n, i) == NewSlot(m.hashing, m.key, n, m.infos[id].address.service) {
        NewScanTake(m, n, i, left);
      } else if id !in left && id in NewIds(m.infos) {
        MetSlotsStep(m.newT, n, i);
        var met := MetSlots(m.newT, n, i + 1, id);
        assert |met| == m.infos[id].refCount + 1;
        SubsetSize(met, SlotsOf(m.newT, id));
      }
    }
  }

  lemma NewScanEnd(m: Model, left: map<int, int>)
    requires NewScan(m, NEW_BUCKET_COUNT, 0, left)
    ensures left == map[] <==> NewTableOk(m)
  {
    forall id
      ensures MetSlots(m.newT, NEW_BUCKET_COUNT, 0, id) == SlotsOf(m.newT, id)
    {
    }
    assert (forall id :: id !in left) ==> left == map[];
    forall id | id in NewIds(m.infos)
      ensures id !in left <==> m.infos[id].refCount == |SlotsOf(m.newT, id)|
    {
    }
  }

  lemma SubsetSize<T>(a: set<T>, b: set<T>)
    requires a <= b
    ensures |a| <= |b|
  {
    assert b == a + (b - a);
  }

  lemma RefCountsSize(infos: map<int, Info>)
    ensures |RefCounts(infos)| == |NewIds(infos)|
    ensures |RefCounts(infos)| == 0 <==> RefCounts(infos) == map[]
  {
    assert RefCounts(infos).Keys == NewIds(infos);
    MapSize(RefCounts(infos));
  }

  /** The conditions under which the source's check finds nothing to report (the key apart). */
  ghost predicate CheckPasses(m: Model) {
    && |m.order| == m.nTried + m.nNew
    && EntriesPass(m.infos, m.byAddr, m.order)
    && m.nTried == |TriedIds(m.infos)|
    && m.nNew == |NewIds(m.infos)|
    && TriedOk(m.hashing, m.key, m.infos, m.triedT)
    && NewTableOk(m)
  }

  /** A manager in order passes the source's check. */
  lemma ConsistentPassesCheck(m: Model)
    requires Consistent(m, {}, {}) && TimesOk(m.infos)
    ensures CheckPasses(m)
  {
    hide TriedOk, NewSlotsOk;
    assert NewIds(m.infos) - {} == NewIds(m.infos);
    assert TriedIds(m.infos) + NewIds(m.infos) == m.infos.Keys;
    MapSize(m.infos);
    forall id | id in m.infos
      ensures EntryPasses(m.infos, m.byAddr, m.order, id)
    {
      if m.infos[id].inTried {
        TriedHasNoRefs(m, id, {}, {});
      }
    }
  }

  /** Conversely, what passes the check is in order, provided the address index has no entry beyond those it checks. */
  lemma PassingIsConsistent(m: Model)
    requires CheckPasses(m) && IdsOk(m.infos, m.idCount)
    requires forall id :: id in m.infos ==> m.infos[id].address.service.ip in m.byAddr
    requires forall a :: a in m.byAddr ==> m.byAddr[a] in m.infos && m.infos[m.byAddr[a]].address.service.ip == a
    ensures Consistent(m, {}, {}) && TimesOk(m.infos)
  {
    hide TriedOk, NewSlotsOk, EntriesPass, NewTableOk;
    assert NewIds(m.infos) - {} == NewIds(m.infos);
    assert TriedIds(m.infos) + NewIds(m.infos) == m.infos.Keys;
    MapSize(m.infos);
    PassingEntries(m);
    PositionsOnto(m.infos, m.order);
    PassingRefs(m);
  }

  lemma PassingEntries(m: Model)
    requires EntriesPass(m.infos, m.byAddr, m.order)
    requires forall id :: id in m.infos ==> m.infos[id].address.service.ip in m.byAddr
    requires forall a :: a in m.byAddr ==> m.byAddr[a] in m.infos && m.infos[m.byAddr[a]].address.service.ip == a
    ensures AddrOk(m.infos, m.byAddr) && TimesOk(m.infos)
    ensures forall id :: id in m.infos ==>
      0 <= m.infos[id].randomPos < |m.order| && m.order[m.infos[id].randomPos] == id
  {
    forall id | id in m.infos
      ensures EntryPasses(m.infos, m.byAddr, m.order, id)
    {
    }
  }

  lemma PassingRefs(m: Model)
    requires EntriesPass(m.infos, m.byAddr, m.order) && NewTableOk(m)
    ensures RefsOk(m.infos, m.newT, {}) && NewSlotsOk(m.hashing, m.key, m.infos, m.newT)
  {
    forall id | id in m.infos
      ensures m.infos[id].refCount == |SlotsOf(m.newT, id)| <= NEW_BUCKETS_PER_ADDRESS
      ensures m.infos[id].inTried || m.infos[id].refCount > 0
    {
      assert EntryPasses(m.infos, m.byAddr, m.order, id);
      if m.infos[id].inTried {
        forall s | s in m.newT
          ensures m.newT[s] != id
        {
        }
        assert SlotsOf(m.newT, id) == {};
      } else {
        assert id in NewIds(m.infos);
      }
    }
  }

  /** Injective positions into a list of the same length reach every place. */
  lemma PositionsOnto(infos: map<int, Info>, order: seq<int>)
    requires |order| == |infos|
    requires forall id :: id in infos ==> 0 <= infos[id].randomPos < |order| && order[infos[id].randomPos] == id
    ensures OrderOk(infos, order)
  {
    var places := Places(infos, infos.Keys);
    PlacesSize(infos, infos.Keys, order);
    MapSize(infos);
    var all := Upto(|order|);
    assert places <= all;
    SubsetEqual(places, all);
    forall i | 0 <= i < |order|
      ensures order[i] in infos && infos[order[i]].randomPos == i
    {
      assert i in all;
      var id :| id in infos.Keys && infos[id].randomPos == i;
    }
  }

  ghost function Places(infos: map<int, Info>, ids: set<int>): set<int>
    requires ids <= infos.Keys
  {
    set id | id in ids :: infos[id].randomPos
  }

  lemma {:induction false} PlacesSize(infos: map<int, Info>, ids: set<int>, order: seq<int>)
    requires ids <= infos.Keys
    requires forall id :: id in infos ==> 0 <= infos[id].randomPos < |order| && order[infos[id].randomPos] == id
    ensures |Places(infos, ids)| == |ids|
    decreases |ids|
  {
    if |ids| == 0 {
      assert Places(infos, ids) == {};
    } else {
      Inhabited(ids);
      var id :| id in ids;
      PlacesSize(infos, ids - {id}, order);
      assert Places(infos, ids) == Places(infos, ids - {id}) + {infos[id].randomPos};
    }
  }

  ghost function Upto(n: nat): (r: set<int>)
    ensures |r| == n && forall i :: i in r <==> 0 <= i < n
  {
    if n == 0 then {} else Upto(n - 1) + {n - 1}
  }

  lemma SubsetEqual(a: set<int>, b: set<int>)
    requires a <= b && |a| == |b|
    ensures a == b
  {
    assert b == a + (b - a);
    assert |b - a| == 0;
  }

  class AddrMan {
    const hashing: Hashing
    const isRoutable: NetAddr -> bool
    const isValid: NetAddr -> bool
    const vvTried: array2<int>
    const vvNew: array2<int>
    var key: int
    var idCount: int
    var mapInfo: map<int, Info>
    var mapAddr: map<NetAddr, int>
    var vRandom: seq<int>
    var nTried: int
    var nNew: int
    var lastGood: int
    var collisions: set<int>

    ghost predicate Shape() {
      && vvTried != vvNew
      && vvTried.Length0 == TRIED_BUCKET_COUNT && vvTried.Length1 == BUCKET_SIZE
      && vvNew.Length0 == NEW_BUCKET_COUNT && vvNew.Length1 == BUCKET_SIZE
    }

    ghost function NewT(): (t: Table)
      requires Shape()
      reads vvNew
    {
      map b, p | 0 <= b < NEW_BUCKET_COUNT && 0 <= p < BUCKET_SIZE && vvNew[b, p] != -1 :: (b, p) := vvNew[b, p]
    }

    ghost function TriedT(): (t: Table)
      requires Shape()
      reads vvTried
    {
      map b, p | 0 <= b < TRIED_BUCKET_COUNT && 0 <= p < BUCKET_SIZE && vvTried[b, p] != -1 :: (b, p) := vvTried[b, p]
    }

    /** The abstract value of the manager. */
    ghost function State(): Model
      requires Shape()
      reads this, vvNew, vvTried
    {
      Model(hashing, key, mapInfo, mapAddr, vRandom, idCount, nNew, nTried, NewT(), TriedT())
    }

    ghost predicate Valid()
      reads this, vvNew, vvTried
    {
      Shape() && Consistent(State(), {}, {}) && CollisionsOk(State(), collisions)
    }

    constructor (hashing: Hashing, isRoutable: NetAddr -> bool, isValid: NetAddr -> bool, freshKey: int)
      ensures this.hashing == hashing && this.isRoutable == isRoutable && this.isValid == isValid
      ensures fresh(vvNew) && fresh(vvTried)
      ensures Valid() && mapInfo == map[] && idCount == 0 && collisions == {} && key == freshKey
    {
      this.hashing, this.isRoutable, this.isValid := hashing, isRoutable, isValid;
      vvTried := new int[TRIED_BUCKET_COUNT, BUCKET_SIZE];
      vvNew := new int[NEW_BUCKET_COUNT, BUCKET_SIZE];
      collisions := {};
      new;
      Clear(freshKey);
    }

    /** Empties every structure except the set of recorded collisions, so the result is valid only if that set was empty. */
    method Clear(freshKey: int)
      requires Shape()
      modifies this`key, this`idCount, this`mapInfo, this`mapAddr, this`vRandom, this`nTried, this`nNew, this`lastGood
      modifies vvNew, vvTried
      ensures Consistent(State(), {}, {})
      ensures key == freshKey && mapInfo == map[] && idCount == 0 && NewT() == map[] && TriedT() == map[]
      ensures mapAddr == map[] && vRandom == [] && nNew == 0 && nTried == 0
      ensures Valid() <==> collisions == {}
    {
      hide Consistent, CollisionsOk;
      vRandom := [];
      key := freshKey;
      for b := 0 to NEW_BUCKET_COUNT
        modifies vvNew
        invariant forall c, q :: 0 <= c < b && 0 <= q < BUCKET_SIZE ==> vvNew[c, q] == -1
      {
        for p := 0 to BUCKET_SIZE
          modifies vvNew
          invariant forall c, q :: 0 <= c < b && 0 <= q < BUCKET_SIZE ==> vvNew[c, q] == -1
          invariant forall q :: 0 <= q < p ==> vvNew[b, q] == -1
        {
          vvNew[b, p] := -1;
        }
      }
      for b := 0 to TRIED_BUCKET_COUNT
        modifies vvTried
        invariant forall c, q :: 0 <= c < b && 0 <= q < BUCKET_SIZE ==> vvTried[c, q] == -1
      {
        for p := 0 to BUCKET_SIZE
          modifies vvTried
          invariant forall c, q :: 0 <= c < b && 0 <= q < BUCKET_SIZE ==> vvTried[c, q] == -1
          invariant forall q :: 0 <= q < p ==> vvTried[b, q] == -1
        {
          vvTried[b, p] := -1;
        }
      }
      idCount := 0;
      nTried := 0;
      nNew := 0;
      lastGood := 1;
      mapInfo := map[];
      mapAddr := map[];
      assert NewT() == map[] && TriedT() == map[];
      EmptyIsConsistent(State());
      NoCollisions(State(), collisions);
    }

    lemma NewCell(b: int, p: int)
      requires Shape() && 0 <= b < NEW_BUCKET_COUNT && 0 <= p < BUCKET_SIZE
      ensures if vvNew[b, p] == -1 then (b, p) !in NewT() else (b, p) in NewT() && NewT()[(b, p)] == vvNew[b, p]
    {
    }

    lemma TriedCell(b: int, p: int)
      requires Shape() && 0 <= b < TRIED_BUCKET_COUNT && 0 <= p < BUCKET_SIZE
      ensures if vvTried[b, p] == -1 then (b, p) !in TriedT() else (b, p) in TriedT() && TriedT()[(b, p)] == vvTried[b, p]
    {
    }

    lemma TablesInRange()
      requires Shape()
      ensures forall s :: s in NewT() ==> 0 <= s.0 < NEW_BUCKET_COUNT && 0 <= s.1 < BUCKET_SIZE
      ensures forall s :: s in TriedT() ==> 0 <= s.0 < TRIED_BUCKET_COUNT && 0 <= s.1 < BUCKET_SIZE
    {
    }

    method SetNew(b: int, p: int, id: int)
      requires Shape() && 0 <= b < NEW_BUCKET_COUNT && 0 <= p < BUCKET_SIZE
      modifies vvNew
      ensures NewT() == if id == -1 then old(NewT()) - {(b, p)} else old(NewT())[(b, p) := id]
    {
      vvNew[b, p] := id;
    }

    method SetTried(b: int, p: int, id: int)
      requires Shape() && 0 <= b < TRIED_BUCKET_COUNT && 0 <= p < BUCKET_SIZE
      modifies vvTried
      ensures TriedT() == if id == -1 then old(TriedT()) - {(b, p)} else old(TriedT())[(b, p) := id]
    {
      vvTried[b, p] := id;
    }

    method SwapRandom(pos1: int, pos2: int)
      requires OrderOk(mapInfo, vRandom)
      requires 0 <= pos1 < |vRandom| && 0 <= pos2 < |vRandom|
      modifies this`mapInfo, this`vRandom
      ensures OrderOk(mapInfo, vRandom)
      ensures vRandom == old(vRandom)[pos1 := old(vRandom)[pos2]][pos2 := old(vRandom)[pos1]]
      ensures SameInfosButPos(mapInfo, old(mapInfo))
    {
      if pos1 == pos2 {
        return;
      }
      SwapOrder(mapInfo, vRandom, pos1, pos2);
      var id1 := vRandom[pos1];
      var id2 := vRandom[pos2];
      mapInfo := mapInfo[id1 := mapInfo[id1].(randomPos := pos2)];
      mapInfo := mapInfo[id2 := mapInfo[id2].(randomPos := pos1)];
      vRandom := vRandom[pos1 := id2];
      vRandom := vRandom[pos2 := id1];
    }

    method Create(addr: Address, source: NetAddr) returns (id: int)
      requires Shape() && Consistent(State(), {}, {})
      requires addr.service.ip !in mapAddr
      modifies this`idCount, this`mapInfo, this`mapAddr, this`vRandom
      ensures id == old(idCount) && idCount == id + 1
      ensures mapInfo == old(mapInfo)[id := Info(addr, source, 0, 0, 0, 0, 0, false, |old(vRandom)|)]
      ensures mapAddr == old(mapAddr)[addr.service.ip := id]
      ensures Consistent(State(), {id}, {id})
    {
      hide IdsOk, AddrOk, OrderOk, CountsOk, NewSlotsOk, RefsOk, TriedOk;
      CreateKeeps(State(), Info(addr, source, 0, 0, 0, 0, 0, false, |vRandom|));
      id := idCount;
      idCount := idCount + 1;
      mapInfo := mapInfo[id := Info(addr, source, 0, 0, 0, 0, 0, false, -1)];
      mapAddr := mapAddr[addr.service.ip := id];
      mapInfo := mapInfo[id := mapInfo[id].(randomPos := |vRandom|)];
      vRandom := vRandom + [id];
    }

    method Delete(id: int, ghost pending: set<int>, ghost uncounted: set<int>)
      requires Shape() && Consistent(State(), pending, uncounted)
      requires id in mapInfo && !mapInfo[id].inTried && mapInfo[id].refCount == 0 && id !in uncounted
      modifies this`mapInfo, this`mapAddr, this`vRandom, this`nNew
      ensures Consistent(State(), pending - {id}, uncounted)
      ensures nNew == old(nNew) - 1
      ensures mapInfo.Keys == old(mapInfo).Keys - {id}
      ensures mapAddr == old(mapAddr) - {old(mapInfo)[id].address.service.ip}
      ensures forall k :: k in mapInfo ==> SameButPos(mapInfo[k], old(mapInfo)[k])
    {
      hide IdsOk, AddrOk, CountsOk, NewSlotsOk, RefsOk, TriedOk;
      SwapRandom(mapInfo[id].randomPos, |vRandom| - 1);
      TouchKeeps(old(State()), State(), pending, uncounted);
      DeleteKeeps(State(), id, pending, uncounted);
      vRandom := vRandom[..|vRandom| - 1];
      mapAddr := mapAddr - {mapInfo[id].address.service.ip};
      mapInfo := mapInfo - {id};
      nNew := nNew - 1;
    }

    /** Empties a new slot; an entry that loses its last slot is deleted. */
    method ClearNew(b: int, p: int, ghost pending: set<int>, ghost uncounted: set<int>)
      requires Shape() && Consistent(State(), pending, uncounted)
      requires 0 <= b < NEW_BUCKET_COUNT && 0 <= p < BUCKET_SIZE
      requires uncounted <= pending && forall id :: id in pending ==> id in mapInfo && mapInfo[id].refCount == 0
      modifies this`mapInfo, this`mapAddr, this`vRandom, this`nNew, vvNew
      ensures Consistent(State(), pending, uncounted)
      ensures NewT() == old(NewT()) - {(b, p)}
      ensures Cleared(old(NewT()), (b, p), old(mapInfo), mapInfo, old(mapAddr), mapAddr)
    {
      hide IdsOk, AddrOk, OrderOk, CountsOk, NewSlotsOk, RefsOk, TriedOk, NewT, TriedT;
      NewCell(b, p);
      if vvNew[b, p] != -1 {
        var id := vvNew[b, p];
        ghost var m := State();
        assert m.newT[(b, p)] == id;
        DropSlotKeeps(m, (b, p), pending, uncounted);
        mapInfo := mapInfo[id := mapInfo[id].(refCount := mapInfo[id].refCount - 1)];
        SetNew(b, p, -1);
        assert State() == m.(infos := m.infos[id := m.infos[id].(refCount := m.infos[id].refCount - 1)],
                             newT := m.newT - {(b, p)});
        if mapInfo[id].refCount == 0 {
          Delete(id, pending + {id}, uncounted);
          assert pending + {id} - {id} == pending;
        } else {
          assert pending + {} == pending;
        }
      }
    }

    /** Takes entry `id` out of new bucket `b`, if it is there. */
    method DropFromBucket(id: int, b: int)
      requires Shape() && Consistent(State(), {id}, {}) && id in mapInfo && 0 <= b < NEW_BUCKET_COUNT
      modifies this`mapInfo, vvNew
      ensures Consistent(State(), {id}, {})
      ensures id in mapInfo && mapInfo == old(mapInfo)[id := old(mapInfo)[id].(refCount := mapInfo[id].refCount)]
      ensures var s := NewSlot(hashing, key, b, old(mapInfo)[id].address.service);
        NewT() == if s in old(NewT()) && old(NewT())[s] == id then old(NewT()) - {s} else old(NewT())
    {
      hide IdsOk, AddrOk, OrderOk, CountsOk, NewSlotsOk, RefsOk, TriedOk, NewT, TriedT;
      ghost var m := State();
      var p := Position(hashing, key, true, b, mapInfo[id].address.service);
      IdInRange(m, id, {id}, {});
      NewCell(b, p);
      if vvNew[b, p] == id {
        DropSlotKeeps(m, (b, p), {id}, {});
        assert {id} + {id} == {id} + {} == {id};
        SetNew(b, p, -1);
        mapInfo := mapInfo[id := mapInfo[id].(refCount := mapInfo[id].refCount - 1)];
        assert State() == m.(infos := m.infos[id := m.infos[id].(refCount := m.infos[id].refCount - 1)],
                             newT := m.newT - {(b, p)});
      }
    }

    /** Takes an untried entry out of every new bucket. */
    method RemoveFromNew(id: int)
      requires Shape() && Consistent(State(), {}, {}) && id in mapInfo && !mapInfo[id].inTried
      modifies this`mapInfo, vvNew
      ensures Consistent(State(), {id}, {})
      ensures mapInfo == old(mapInfo)[id := old(mapInfo)[id].(refCount := 0)]
      ensures NewT() == old(NewT()) - SlotsOf(old(NewT()), id)
    {
      hide IdsOk, AddrOk, OrderOk, CountsOk, NewSlotsOk, RefsOk, TriedOk, NewT, TriedT, SlotsBelow, SlotsOf;
      PendingGrows(State(), {}, {id}, {});
      ghost var t := NewT();
      NoneBelow(State(), id);
      for b := 0 to NEW_BUCKET_COUNT
        invariant Consistent(State(), {id}, {})
        invariant id in mapInfo && mapInfo == old(mapInfo)[id := old(mapInfo)[id].(refCount := mapInfo[id].refCount)]
        invariant NewT() == t - SlotsBelow(t, id, b)
      {
        SlotsBelowStep(State(), t, id, b, {id});
        DropFromBucket(id, b);
      }
      AllBelow(old(State()), id);
      NoSlotsNoRefs(State(), t, id, {id}, {});
    }

    /** Makes room in the tried slot `(b, p)` of entry `id`, which is in transit. */
    method EvictToNew(b: int, p: int, ghost id: int)
      requires Shape() && Consistent(State(), {id}, {id}) && id in mapInfo && mapInfo[id].refCount == 0
      requires 0 <= b < TRIED_BUCKET_COUNT && 0 <= p < BUCKET_SIZE
      modifies this`mapInfo, this`mapAddr, this`vRandom, this`nNew, this`nTried, vvNew, vvTried
      ensures Consistent(State(), {id}, {id})
      ensures id in mapInfo && SameButPos(mapInfo[id], old(mapInfo)[id])
      ensures TriedT() == old(TriedT()) - {(b, p)}
      ensures Evicted(old(State()), State(), (b, p))
    {
      hide IdsOk, AddrOk, OrderOk, CountsOk, NewSlotsOk, RefsOk, TriedOk, Cleared, Evicted, NewT, TriedT;
      TriedCell(b, p);
      if vvTried[b, p] != -1 {
        var evict := vvTried[b, p];
        ghost var m0 := State();
        assert m0.triedT[(b, p)] == evict;
        OccupantIsTried(m0, (b, p), {id}, {id});
        TriedHasNoRefs(m0, evict, {id}, {id});
        EvictKeeps(m0, evict, {id}, {id});
        mapInfo := mapInfo[evict := mapInfo[evict].(inTried := false)];
        SetTried(b, p, -1);
        nTried := nTried - 1;
        ghost var m1 := State();
        assert {id} + {evict} == {id, evict};
        assert m1 == m0.(infos := m0.infos[evict := m0.infos[evict].(inTried := false)], nTried := m0.nTried - 1,
                         triedT := m0.triedT - {(b, p)});

        var uBucket := NewBucket(hashing, key, mapInfo[evict].address.service, mapInfo[evict].source);
        var uPos := Position(hashing, key, true, uBucket, mapInfo[evict].address.service);
        ClearNew(uBucket, uPos, {id, evict}, {id, evict});
        ghost var m2 := State();
        ClearSpares(m1, m2, (uBucket, uPos), {id, evict}, {id, evict});

        AddSlotKeeps(m2, uBucket, evict, {id, evict}, {id, evict});
        mapInfo := mapInfo[evict := mapInfo[evict].(refCount := 1)];
        SetNew(uBucket, uPos, evict);
        ghost var m3 := State();
        assert {id, evict} - {evict} == {id};
        assert m3 == m2.(infos := m2.infos[evict := m2.infos[evict].(refCount := m2.infos[evict].refCount + 1)],
                         newT := m2.newT[(uBucket, uPos) := evict]);
        CountKeeps(m3, evict, {id}, {id, evict});
        nNew := nNew + 1;
        EvictedBySteps(m0, m2, State(), (b, p));
      } else {
        NothingEvicted(State(), (b, p));
      }
    }

    /** Moves an untried entry to the tried table. */
    method MakeTried(id: int)
      requires Shape() && Consistent(State(), {}, {}) && id in mapInfo && !mapInfo[id].inTried
      modifies this`mapInfo, this`mapAddr, this`vRandom, this`nNew, this`nTried, vvNew, vvTried
      ensures Consistent(State(), {}, {})
      ensures MadeTried(old(State()), State(), id)
    {
      hide IdsOk, AddrOk, OrderOk, CountsOk, NewSlotsOk, RefsOk, TriedOk, NewT, TriedT, Evicted, SlotsOf, MadeTried;
      RemoveFromNew(id);
      CountKeeps(State(), id, {id}, {});
      assert {} + {id} == {id} && {id} - {id} == {};
      nNew := nNew - 1;
      ghost var m1 := State();
      assert m1 == Removed(old(State()), id);

      var kBucket := TriedBucket(hashing, key, mapInfo[id].address.service);
      var kPos := Position(hashing, key, false, kBucket, mapInfo[id].address.service);
      EvictToNew(kBucket, kPos, id);
      ghost var m2 := State();
      PromoteKeeps(m2, id, {id}, {id});
      SetTried(kBucket, kPos, id);
      nTried := nTried + 1;
      mapInfo := mapInfo[id := mapInfo[id].(inTried := true)];
      IdInRange(m2, id, {id}, {id});
      MadeTriedBySteps(old(State()), m2, State(), id);
    }

    // ----- the public operations -----

    method Find(addr: NetAddr) returns (found: bool, id: int)
      requires Shape() && Consistent(State(), {}, {})
      ensures found <==> addr in mapAddr
      ensures found ==> id == mapAddr[addr] && id in mapInfo && mapInfo[id].address.service.ip == addr
    {
      hide IdsOk, OrderOk, CountsOk, NewSlotsOk, RefsOk, TriedOk;
      found := addr in mapAddr && mapAddr[addr] in mapInfo;
      id := if found then mapAddr[addr] else -1;
    }

    /** Finds a new bucket that holds an untried entry, scanning from an arbitrary start. */
    method FindNewBucket(id: int) returns (bucket: int)
      requires Shape() && Consistent(State(), {}, {}) && id in mapInfo && !mapInfo[id].inTried
      ensures 0 <= bucket < NEW_BUCKET_COUNT
      ensures vvNew[bucket, Position(hashing, key, true, bucket, mapInfo[id].address.service)] == id
    {
      hide IdsOk, AddrOk, OrderOk, CountsOk, NewSlotsOk, RefsOk, TriedOk;
      var service := mapInfo[id].address.service;
      var rnd: int :| 0 <= rnd < NEW_BUCKET_COUNT;
      ghost var b := HasNewSlot(State(), id);
      NewCell(b, Position(hashing, key, true, b, service));
      ghost var stop := if rnd <= b then b - rnd else b - rnd + NEW_BUCKET_COUNT;
      assert (stop + rnd) % NEW_BUCKET_COUNT == b;
      bucket := -1;
      var n := 0;
      while n < NEW_BUCKET_COUNT
        invariant 0 <= n <= stop
        invariant bucket == -1
      {
        var candidate := (n + rnd) % NEW_BUCKET_COUNT;
        if vvNew[candidate, Position(hashing, key, true, candidate, service)] == id {
          bucket := candidate;
          break;
        }
        n := n + 1;
      }
    }

    method Good(addr: Service, testBeforeEvict: bool, time: int)
      requires Valid()
      modifies this`mapInfo, this`mapAddr, this`vRandom, this`nNew, this`nTried, this`lastGood, this`collisions
      modifies vvNew, vvTried
      ensures Valid()
      ensures lastGood == time
      ensures GoodEffect(old(State()), State(), old(collisions), collisions, addr, testBeforeEvict, time)
    {
      hide IdsOk, AddrOk, OrderOk, CountsOk, NewSlotsOk, RefsOk, TriedOk, NewT, TriedT, MadeTried, CollisionsOk;
      lastGood := time;
      ghost var m0 := State();
      var found, id := Find(addr.ip);
      if !found {
        return;
      }
      if mapInfo[id].address.service != addr {
        return;
      }
      var info := mapInfo[id].(lastSuccess := time, lastTry := time, attempts := 0);
      TouchValid(m0, id, info, collisions);
      mapInfo := mapInfo[id := info];
      ghost var m1 := State();
      assert m1 == Touched(m0, id, info);
      if info.inTried {
        return;
      }
      var uBucket := FindNewBucket(id);

      var tBucket := TriedBucket(hashing, key, addr);
      var tPos := Position(hashing, key, false, tBucket, addr);
      TriedCell(tBucket, tPos);
      if testBeforeEvict && vvTried[tBucket, tPos] != -1 {
        if |collisions| < SET_TRIED_COLLISION_SIZE {
          CollisionAdded(m1, collisions, id);
          collisions := collisions + {id};
        }
      } else {
        MakeTried(id);
        MadeTriedCollisions(m1, State(), id, collisions);
      }
    }

    /** Puts entry `id` into its slot of new bucket `b`, over whatever other entry is there. */
    method OverwriteSlot(id: int, b: int, ghost pending: set<int>)
      requires Shape() && id in mapInfo && !mapInfo[id].inTried && mapInfo[id].refCount < NEW_BUCKETS_PER_ADDRESS
      requires pending == if mapInfo[id].refCount == 0 then {id} else {}
      requires Consistent(State(), pending, {}) && 0 <= b < NEW_BUCKET_COUNT
      requires vvNew[b, Position(hashing, key, true, b, mapInfo[id].address.service)] != id
      modifies this`mapInfo, this`mapAddr, this`vRandom, this`nNew, vvNew
      ensures Consistent(State(), {}, {})
      ensures Overwrote(old(State()), State(), id, b)
    {
      hide IdsOk, AddrOk, OrderOk, CountsOk, NewSlotsOk, RefsOk, TriedOk, NewT, TriedT, Cleared;
      ghost var m0 := State();
      var p := Position(hashing, key, true, b, mapInfo[id].address.service);
      NewCell(b, p);
      ClearNew(b, p, pending, {});
      ghost var m1 := State();
      ClearedOther(m0, m1, (b, p), id);
      AddSlotKeeps(m1, b, id, pending, {});
      assert pending - {id} == {};
      mapInfo := mapInfo[id := mapInfo[id].(refCount := mapInfo[id].refCount + 1)];
      IdInRange(m0, id, pending, {});
      SetNew(b, p, id);
      assert mapInfo[id := mapInfo[id].(refCount := mapInfo[id].refCount - 1)] == m1.infos;
      assert NewT() == m0.newT[(b, p) := id];
    }

    /** Offers entry `id` a slot in its new bucket for `source`. */
    method EnterNewBucket(id: int, source: NetAddr, now: int)
      requires Shape() && id in mapInfo && !mapInfo[id].inTried && mapInfo[id].refCount < NEW_BUCKETS_PER_ADDRESS
      requires Consistent(State(), if mapInfo[id].refCount == 0 then {id} else {}, {})
      modifies this`mapInfo, this`mapAddr, this`vRandom, this`nNew, vvNew
      ensures Consistent(State(), {}, {})
      ensures EnteredNew(old(State()), State(), id, source, now)
    {
      hide IdsOk, AddrOk, OrderOk, CountsOk, NewSlotsOk, RefsOk, TriedOk, NewT, TriedT, Overwrote;
      ghost var m0 := State();
      ghost var pending := if mapInfo[id].refCount == 0 then {id} else {};
      var uBucket := NewBucket(hashing, key, mapInfo[id].address.service, source);
      var uPos := Position(hashing, key, true, uBucket, mapInfo[id].address.service);
      NewCell(uBucket, uPos);
      IdInRange(m0, id, pending, {});
      if vvNew[uBucket, uPos] != id {
        var insert := vvNew[uBucket, uPos] == -1;
        if !insert {
          OccupantIsNew(m0, (uBucket, uPos), pending, {});
          var existing := mapInfo[vvNew[uBucket, uPos]];
          if IsTerrible(existing, now) || (existing.refCount > 1 && mapInfo[id].refCount == 0) {
            insert := true;
          }
        }
        if insert {
          OverwriteSlot(id, uBucket, pending);
          OverwroteFacts(m0, State(), id, uBucket);
        } else {
          if mapInfo[id].refCount == 0 {
            Delete(id, pending, {});
            assert pending - {id} == {};
          }
        }
      } else {
        OccupantIsNew(m0, (uBucket, uPos), pending, {});
      }
    }

    /** Refreshes a known entry; `proceed` tells whether it gets one more reference. The random number below a bound is
        `draw` reduced to that bound. */
    method UpdateKnown(id: int, addr: Address, timePenalty: int, now: int, draw: nat) returns (proceed: bool)
      requires Shape() && Consistent(State(), {}, {}) && id in mapInfo
      modifies this`mapInfo
      ensures Consistent(State(), {}, {}) && (old(Valid()) ==> Valid())
      ensures State() == Touched(old(State()), id, Refreshed(old(mapInfo)[id], addr, timePenalty, now))
      ensures proceed <==> MayGrow(mapInfo[id], addr, draw)
      ensures proceed ==> !mapInfo[id].inTried && 0 < mapInfo[id].refCount < NEW_BUCKETS_PER_ADDRESS
    {
      hide IdsOk, AddrOk, OrderOk, CountsOk, NewSlotsOk, RefsOk, TriedOk, NewT, TriedT, CollisionsOk;
      TouchValid(State(), id, Refreshed(mapInfo[id], addr, timePenalty, now), collisions);
      mapInfo := mapInfo[id := Refreshed(mapInfo[id], addr, timePenalty, now)];
      var info := mapInfo[id];
      RefsInRange(State(), id);
      hide Consistent, RefsOk;
      if addr.time == 0 || (info.address.time != 0 && addr.time <= info.address.time) {
        return false;
      }
      if info.inTried {
        return false;
      }
      if info.refCount == NEW_BUCKETS_PER_ADDRESS {
        return false;
      }
      var factor := 1;
      for n := 0 to info.refCount
        modifies {}
        invariant factor == Pow2(n)
      {
        Pow2Step(n);
        factor := factor * 2;
      }
      if factor > 1 && draw % factor != 0 {
        return false;
      }
      proceed := true;
    }

    /** Enters an address heard for the first time, which has no place in a bucket yet. */
    method Introduce(addr: Address, source: NetAddr, penalty: int) returns (id: int)
      requires Shape() && Consistent(State(), {}, {}) && addr.service.ip !in mapAddr
      modifies this`idCount, this`mapInfo, this`mapAddr, this`vRandom, this`nNew
      ensures Consistent(State(), {id}, {})
      ensures id == old(idCount) && idCount == id + 1 && mapAddr == old(mapAddr)[addr.service.ip := id]
      ensures mapInfo == old(mapInfo)[id := Newcomer(addr, source, penalty).(randomPos := |old(vRandom)|)]
    {
      hide Consistent, NewT, TriedT;
      id := Create(addr, source);
      var info := mapInfo[id].(address := addr.(time := Max(0, addr.time - penalty)));
      CreatedTouched(State(), id, info);
      mapInfo := mapInfo[id := info];
      CountKeeps(State(), id, {id}, {id});
      assert {id} - {id} == {};
      nNew := nNew + 1;
    }

    /** Hears about an address. Besides its effect on the entries, an address heard for the first time uses up an id. */
    method Add(addr: Address, source: NetAddr, timePenalty: int, now: int, draw: nat) returns (fNew: bool)
      requires Shape() && Consistent(State(), {}, {})
      modifies this`idCount, this`mapInfo, this`mapAddr, this`vRandom, this`nNew, vvNew
      ensures Consistent(State(), {}, {}) && (old(Valid()) ==> Valid())
      ensures fNew <==> isRoutable(addr.service.ip) && addr.service.ip !in old(mapAddr)
      ensures idCount == old(idCount) + if fNew then 1 else 0
      ensures !isRoutable(addr.service.ip) ==> State() == old(State())
      ensures isRoutable(addr.service.ip) ==>
                AddEffect(old(State()), State(), addr, source, Penalty(addr, source, timePenalty), now, draw)
      ensures old(TimesOk(mapInfo)) ==> TimesOk(mapInfo)
    {
      hide Consistent, NewT, TriedT, EnteredNew, CollisionsOk, TimesOk, AddEffect, MayGrow;
      if !isRoutable(addr.service.ip) {
        return false;
      }
      ghost var m0 := State();
      var found, id := Find(addr.service.ip);
      var penalty := Penalty(addr, source, timePenalty);
      if found {
        var proceed := UpdateKnown(id, addr, penalty, now, draw);
        if proceed {
          ghost var m1 := State();
          EnterNewBucket(id, source, now);
          AddFacts(m0, m1, State(), id, addr, source, penalty, now, draw, collisions);
        } else {
          RefreshFacts(m0, id, Refreshed(m0.infos[id], addr, penalty, now), addr, source, penalty, now, draw);
        }
      } else {
        id := Introduce(addr, source, penalty);
        ghost var m1 := State();
        EnterNewBucket(id, source, now);
        AddFacts(m0, m1, State(), id, addr, source, penalty, now, draw, collisions);
      }
      fNew := !found;
    }

    method Attempt(addr: Service, countFailure: bool, time: int)
      requires Valid()
      modifies this`mapInfo
      ensures Valid()
      ensures if !Known(old(State()), addr) then State() == old(State()) else
        var id := old(mapAddr)[addr.ip];
        var info := old(mapInfo)[id].(lastTry := time);
        State() == Touched(old(State()), id,
          if countFailure && info.lastCountAttempt < lastGood
          then info.(lastCountAttempt := time, attempts := info.attempts + 1) else info)
      ensures old(TimesOk(mapInfo)) ==> (TimesOk(mapInfo) <==> time >= 0 || !Known(old(State()), addr))
    {
      hide IdsOk, AddrOk, OrderOk, CountsOk, NewSlotsOk, RefsOk, TriedOk, NewT, TriedT, CollisionsOk;
      var found, id := Find(addr.ip);
      if !found || mapInfo[id].address.service != addr {
        return;
      }
      var info := mapInfo[id].(lastTry := time);
      if countFailure && info.lastCountAttempt < lastGood {
        info := info.(lastCountAttempt := time, attempts := info.attempts + 1);
      }
      TouchValid(State(), id, info, collisions);
      mapInfo := mapInfo[id := info];
      assert id in mapInfo && mapInfo[id].lastTry == time;
    }

    method Connected(addr: Service, time: int)
      requires Valid()
      modifies this`mapInfo
      ensures Valid()
      ensures if !Known(old(State()), addr) then State() == old(State()) else
        var id := old(mapAddr)[addr.ip];
        var info := old(mapInfo)[id];
        State() == Touched(old(State()), id,
          if time - info.address.time > 20 * 60 then info.(address := info.address.(time := time)) else info)
      ensures old(TimesOk(mapInfo)) ==> TimesOk(mapInfo)
    {
      hide IdsOk, AddrOk, OrderOk, CountsOk, NewSlotsOk, RefsOk, TriedOk, NewT, TriedT, CollisionsOk;
      var found, id := Find(addr.ip);
      if !found || mapInfo[id].address.service != addr {
        return;
      }
      var info := mapInfo[id];
      if time - info.address.time > 20 * 60 {
        info := info.(address := info.address.(time := time));
      }
      TouchValid(State(), id, info, collisions);
      mapInfo := mapInfo[id := info];
    }

    method SetServices(addr: Service, services: bv64)
      requires Valid()
      modifies this`mapInfo
      ensures Valid()
      ensures if !Known(old(State()), addr) then State() == old(State()) else
        var id := old(mapAddr)[addr.ip];
        var info := old(mapInfo)[id];
        State() == Touched(old(State()), id, info.(address := info.address.(services := services)))
      ensures old(TimesOk(mapInfo)) ==> TimesOk(mapInfo)
    {
      hide IdsOk, AddrOk, OrderOk, CountsOk, NewSlotsOk, RefsOk, TriedOk, NewT, TriedT, CollisionsOk;
      var found, id := Find(addr.ip);
      if !found || mapInfo[id].address.service != addr {
        return;
      }
      var info := mapInfo[id].(address := mapInfo[id].address.(services := services));
      TouchValid(State(), id, info, collisions);
      mapInfo := mapInfo[id := info];
    }

    /** Moves the entry at `pos` to place `n` of the random list and takes its address unless it is terrible. */
    method DrawNext(n: int, pos: int, addrs: seq<Address>, now: int) returns (more: seq<Address>)
      requires Valid() && 0 <= n <= pos < |vRandom| && Drawn(mapInfo, vRandom[..n], addrs, now)
      modifies this`mapInfo, this`vRandom
      ensures Valid() && SameInfosButPos(mapInfo, old(mapInfo))
      ensures |vRandom| == |old(vRandom)| && multiset(vRandom) == multiset(old(vRandom))
      ensures Drawn(mapInfo, vRandom[..n + 1], more, now) && |addrs| <= |more| <= |addrs| + 1
    {
      hide IdsOk, AddrOk, CountsOk, NewSlotsOk, RefsOk, TriedOk, NewT, TriedT, CollisionsOk, SameInfosButPos, Drawn;
      ghost var m := State();
      ghost var done := vRandom[..n];
      SwapRandom(n, pos);
      SameInfosRefl(m.infos);
      SwapValid(m, State(), m.infos, collisions);
      assert vRandom[..n] == done;
      assert vRandom[..n + 1] == done + [vRandom[n]];
      DrawnStep(m.infos, mapInfo, done, vRandom[n], addrs, now);
      var info := mapInfo[vRandom[n]];
      more := addrs;
      if !IsTerrible(info, now) {
        more := addrs + [info.address];
      }
    }

    /** Draws addresses at random without repetition, skipping terrible ones. */
    method GetAddr(now: int) returns (addrs: seq<Address>)
      requires Valid()
      modifies this`mapInfo, this`vRandom
      ensures Valid() && SameInfosButPos(mapInfo, old(mapInfo))
      ensures multiset(vRandom) == multiset(old(vRandom))
      ensures |addrs| <= GETADDR_MAX && |addrs| * 100 <= GETADDR_MAX_PCT * |vRandom|
      ensures forall a :: a in addrs ==> Offerable(mapInfo, a, now)
      ensures forall i, j :: 0 <= i < j < |addrs| ==> addrs[i].service.ip != addrs[j].service.ip
      ensures |addrs| < GETADDR_MAX && (|addrs| + 1) * 100 <= GETADDR_MAX_PCT * |vRandom| ==>
                forall id :: id in mapInfo && !IsTerrible(mapInfo[id], now) ==> mapInfo[id].address in addrs
    {
      hide IdsOk, AddrOk, CountsOk, NewSlotsOk, RefsOk, TriedOk, NewT, TriedT, CollisionsOk, SameInfosButPos, Offerable, Drawn;
      var nodes := GETADDR_MAX_PCT * |vRandom| / 100;
      if nodes > GETADDR_MAX {
        nodes := GETADDR_MAX;
      }
      addrs := [];
      var n := 0;
      SameInfosRefl(mapInfo);
      DrawnNothing(mapInfo, now);
      assert vRandom[..0] == [];
      while n < |vRandom| && |addrs| < nodes
        invariant Valid() && 0 <= n <= |vRandom|
        invariant SameInfosButPos(mapInfo, old(mapInfo)) && multiset(vRandom) == multiset(old(vRandom))
        invariant |addrs| <= nodes && |vRandom| == |old(vRandom)|
        invariant Drawn(mapInfo, vRandom[..n], addrs, now)
        decreases |vRandom| - n
      {
        ghost var before := mapInfo;
        var r: int :| 0 <= r < |vRandom| - n;
        addrs := DrawNext(n, r + n, addrs, now);
        SameInfosTrans(mapInfo, before, old(mapInfo));
        n := n + 1;
      }
      if n == |vRandom| {
        assert vRandom[..n] == vRandom;
        DrawnAll(State(), addrs, now);
      }
      DrawnDistinct(State(), vRandom[..n], addrs, now);
    }

    /** Resolves one recorded collision; `erase` tells whether it is settled. (The source also provides for an empty tried
        slot here; the invariant rules that case out.) */
    method ResolveCollision(id: int, now: Readings) returns (erase: bool)
      requires Valid() && id in collisions
      modifies this`mapInfo, this`mapAddr, this`vRandom, this`nNew, this`nTried, this`lastGood, this`collisions, vvNew, vvTried
      ensures Valid() && collisions == old(collisions)
      ensures erase <==> Decided(old(State()), isValid, id, now)
      ensures if Wins(old(State()), isValid, id, now)
              then GoodEffect(old(State()), State(), {}, {}, old(mapInfo)[id].address.service, false, now.last)
              else State() == old(State())
    {
      hide IdsOk, AddrOk, OrderOk, CountsOk, NewSlotsOk, RefsOk, TriedOk, NewT, TriedT, MadeTried;
      erase := false;
      if id !in mapInfo {
        erase := true;
      } else {
        var service := mapInfo[id].address.service;
        var tBucket := TriedBucket(hashing, key, service);
        var tPos := Position(hashing, key, false, tBucket, service);
        TriedCell(tBucket, tPos);
        if !isValid(service.ip) {
          erase := true;
        } else {
          OccupantIsTried(State(), (tBucket, tPos), {}, {});
          var occupant := mapInfo[vvTried[tBucket, tPos]];
          assert InTheWay(State(), id, vvTried[tBucket, tPos]);
          if now.first - occupant.lastSuccess < REPLACEMENT_HOURS * 60 * 60 {
            erase := true;
          } else if now.second - occupant.lastTry < REPLACEMENT_HOURS * 60 * 60 {
            if now.third - occupant.lastTry > 60 {
              Good(service, false, now.last);
              erase := true;
            }
          }
        }
      }
    }

    /** Resolves one recorded collision and drops the record if it is decided. */
    method SettleNext(id: int, ghost first: Model, clock: Clock, ghost recorded: set<int>)
      requires Valid() && id in collisions && SlotsKept(first, State())
      requires id in recorded && FairlyReplaced(first.infos, mapInfo, clock, recorded)
      modifies this`mapInfo, this`mapAddr, this`vRandom, this`nNew, this`nTried, this`lastGood, this`collisions, vvNew, vvTried
      ensures Valid() && SlotsKept(first, State()) && FairlyReplaced(first.infos, mapInfo, clock, recorded)
      ensures old(TimesOk(mapInfo)) && clock(id).last > 0 ==> TimesOk(mapInfo)
      ensures Resolves(old(State()), State(), isValid, id, clock(id))
      ensures collisions == if Decided(old(State()), isValid, id, clock(id)) then old(collisions) - {id} else old(collisions)
    {
      hide Consistent, NewT, TriedT, CollisionsOk, GoodEffect, Beaten, FairlyReplaced, TimesOk, SlotsKept, Decided, Wins;
      ghost var m := State();
      ghost var service := if id in mapInfo then mapInfo[id].address.service else Service(0, 0);
      var now := clock(id);
      var erase := ResolveCollision(id, now);
      if State() != m {
        WinsBeats(m, isValid, id, now);
        ResolveStep(first.infos, m, State(), id, clock, recorded);
        SlotsKeptStep(first, m, State(), service, now.last);
        if TimesOk(m.infos) && now.last > 0 {
          GoodTimes(m, State(), {}, {}, service, false, now.last);
        }
      }
      if erase {
        CollisionErased(State(), collisions, id);
        collisions := collisions - {id};
      }
    }

    /** Settles the recorded collisions in ascending order: `states` are the states between them, and a record is dropped
        exactly when it is decided in the state and at the times its turn finds. A filled tried slot stays filled, and a tried
        entry gives way only if, at the turn of some record, it had not succeeded for hours and had failed an attempt more than
        a minute ago. */
    method ResolveCollisions(clock: Clock) returns (ghost ids: seq<int>, ghost states: seq<Model>)
      requires Valid()
      modifies this`mapInfo, this`mapAddr, this`vRandom, this`nNew, this`nTried, this`lastGood, this`collisions, vvNew, vvTried
      ensures Valid()
      ensures Resolving(isValid, ids, states, old(collisions), collisions, clock) && |states| == |ids| + 1
      ensures states[0] == old(State()) && states[|ids|] == State() && forall id :: id in old(collisions) ==> id in ids
      ensures forall s :: s in old(TriedT()) ==> s in TriedT()
      ensures FairlyReplaced(old(mapInfo), mapInfo, clock, old(collisions))
      ensures old(TimesOk(mapInfo)) && AllPositive(clock, old(collisions)) ==> TimesOk(mapInfo)
      ensures (forall id :: id in old(collisions) ==> !Wins(old(State()), isValid, id, clock(id))) ==>
                && State() == old(State())
                && forall id :: id in old(collisions) ==> (id in collisions <==> !Decided(State(), isValid, id, clock(id)))
    {
      hide Consistent, NewT, TriedT, CollisionsOk, FairlyReplaced, TimesOk, SlotsKept, Decided, Wins, Resolves, Resolving;
      hide Remaining;
      FairlyReplacedRefl(mapInfo, clock, collisions);
      ghost var m0 := State();
      SlotsKeptRefl(m0);
      var todo := collisions;
      ids, states := [], [m0];
      ResolvingStart(isValid, m0, collisions, clock);
      while |todo| > 0
        invariant Valid() && todo <= collisions <= old(collisions)
        invariant Resolving(isValid, ids, states, old(collisions), collisions, clock) && Remaining(ids, old(collisions), todo)
        invariant |states| == |ids| + 1 && states[0] == m0 && states[|ids|] == State()
        invariant SlotsKept(m0, State())
        invariant FairlyReplaced(old(mapInfo), mapInfo, clock, old(collisions))
        invariant old(TimesOk(mapInfo)) && AllPositive(clock, old(collisions)) ==> TimesOk(mapInfo)
      {
        HasLeast(todo);
        var id :| id in todo && forall x :: x in todo ==> id <= x;
        ghost var kept := collisions;
        SettleNext(id, m0, clock, old(collisions));
        assert todo == todo - {id} + {id};
        todo := todo - {id};
        ResolvingNext(isValid, ids, states, old(collisions), kept, collisions, id, todo, State(), clock);
        ids, states := ids + [id], states + [State()];
      }
      SlotsKeptAll(m0, State());
      ResolvingAll(ids, old(collisions));
      ResolvedQuietly(isValid, ids, states, old(collisions), collisions, clock);
    }

    /** Picks a recorded collision at random and returns the tried entry that stands in its way; a stale record is dropped. If
        the slot turns out to be empty, looking up its occupant enters a null entry under the id that marks empty slots. */
    method SelectTriedCollision() returns (r: Option<Info>)
      requires Shape() && Consistent(State(), {}, {})
      modifies this`collisions, this`mapInfo
      ensures old(Valid()) ==> Valid() && mapInfo == old(mapInfo)
      ensures old(collisions) == {} ==> r == None && collisions == {}
      ensures r == None ==> mapInfo == old(mapInfo)
      ensures r == None && old(collisions) != {} ==>
                exists id :: id in old(collisions) && id !in mapInfo && collisions == old(collisions) - {id}
      ensures r.Some? ==> collisions == old(collisions)
      ensures r.Some? && mapInfo == old(mapInfo) ==> StandsInTheWay(State(), collisions, r.value)
      ensures r.Some? && mapInfo != old(mapInfo) ==>
                && FacesNobody(old(State()), collisions)
                && r.value == NULL_INFO && mapInfo == old(mapInfo)[-1 := NULL_INFO]
    {
      hide IdsOk, AddrOk, OrderOk, CountsOk, NewSlotsOk, RefsOk, TriedOk, NewT, TriedT;
      if |collisions| == 0 {
        return None;
      }
      Inhabited(collisions);
      var id :| id in collisions;
      if id !in mapInfo {
        ErasedIfOk(State(), collisions, id);
        collisions := collisions - {id};
        return None;
      }
      var service := mapInfo[id].address.service;
      var tBucket := TriedBucket(hashing, key, service);
      var tPos := Position(hashing, key, false, tBucket, service);
      TriedCell(tBucket, tPos);
      var occupant := vvTried[tBucket, tPos];
      if occupant == -1 {
        assert FacesNobody(State(), collisions);
        NoNullEntry(State());
        mapInfo := mapInfo[-1 := NULL_INFO];
        return Some(NULL_INFO);
      }
      OccupantIsTried(State(), (tBucket, tPos), {}, {});
      assert InTheWay(State(), id, occupant);
      r := Some(mapInfo[occupant]);
    }

    // ----- the source's own consistency check -----

    /** The check of one entry. */
    method CheckEntry(n: int) returns (code: int)
      requires n in mapInfo
      ensures code == 0 <==> EntryPasses(mapInfo, mapAddr, vRandom, n)
    {
      var info := mapInfo[n];
      if info.inTried {
        if info.lastSuccess == 0 {
          return -1;
        }
        if info.refCount != 0 {
          return -2;
        }
      } else {
        if info.refCount < 0 || info.refCount > NEW_BUCKETS_PER_ADDRESS {
          return -3;
        }
        if info.refCount == 0 {
          return -4;
        }
      }
      if Lookup(mapAddr, info.address.service.ip) != n {
        return -5;
      }
      if info.randomPos < 0 || info.randomPos >= |vRandom| || vRandom[info.randomPos] != n {
        return -14;
      }
      if info.lastTry < 0 {
        return -6;
      }
      if info.lastSuccess < 0 {
        return -8;
      }
      return 0;
    }

    /** First pass: every entry on its own, collecting the tried ids and the reference counts of the others. */
    method CheckEntries() returns (code: int, tried: set<int>, refs: map<int, int>)
      ensures code == 0 <==> EntriesPass(mapInfo, mapAddr, vRandom)
      ensures code == 0 ==> tried == TriedIds(mapInfo) && refs == RefCounts(mapInfo)
    {
      hide EntriesScan, EntryPasses;
      code, tried, refs := 0, {}, map[];
      var todo := mapInfo.Keys;
      EntriesScanStart(mapInfo, mapAddr, vRandom);
      while |todo| > 0
        invariant todo <= mapInfo.Keys
        invariant EntriesScan(mapInfo, mapAddr, vRandom, mapInfo.Keys - todo, tried, refs)
        decreases |todo|
      {
        Inhabited(todo);
        var n :| n in todo;
        assert n in mapInfo.Keys;
        code := CheckEntry(n);
        if code != 0 {
          return;
        }
        EntriesScanStep(mapInfo, mapAddr, vRandom, mapInfo.Keys - todo, tried, refs, n);
        if mapInfo[n].inTried {
          tried := tried + {n};
        } else {
          refs := refs[n := mapInfo[n].refCount];
        }
        assert mapInfo.Keys - todo + {n} == mapInfo.Keys - (todo - {n});
        todo := todo - {n};
      }
      assert mapInfo.Keys - todo == mapInfo.Keys;
      EntriesScanEnd(mapInfo, mapAddr, vRandom, tried, refs);
    }

    /** Second pass: the tried slots; `left` are the tried ids not met. */
    method CheckTriedTable(tried: set<int>) returns (code: int, left: set<int>)
      requires Shape() && tried == TriedIds(mapInfo)
      ensures code == 0 && left == {} <==> TriedOk(hashing, key, mapInfo, TriedT())
    {
      hide TriedT, NewT, TriedOk, TriedScan, TriedIds;
      ghost var m := State();
      left := tried;
      TablesInRange();
      TriedScanStart(m);
      for n := 0 to TRIED_BUCKET_COUNT
        invariant TriedScan(m, n, 0, left)
      {
        for i := 0 to BUCKET_SIZE
          invariant TriedScan(m, n, i, left)
        {
          TriedCell(n, i);
          TriedScanStep(m, n, i, left);
          if vvTried[n, i] != -1 {
            var id := vvTried[n, i];
            if id !in left {
              return -11, left;
            }
            TriedScanKnown(m, n, i, left, id);
            if TriedBucket(hashing, key, mapInfo[id].address.service) != n {
              return -17, left;
            }
            if Position(hashing, key, false, n, mapInfo[id].address.service) != i {
              return -18, left;
            }
            left := left - {id};
          }
        }
        TriedScanNextBucket(m, n, left);
      }
      TriedScanEnd(m, left);
      code := 0;
    }

    /** Third pass: the new slots; `left` holds the references not met. */
    method CheckNewTable(refs: map<int, int>) returns (code: int, left: map<int, int>)
      requires Shape() && EntriesPass(mapInfo, mapAddr, vRandom) && refs == RefCounts(mapInfo)
      ensures code == 0 && left == map[] <==> NewTableOk(State())
    {
      hide TriedT, NewT, NewScan, EntriesPass, NewTableOk, RefCounts;
      ghost var m := State();
      left := refs;
      TablesInRange();
      NewScanStart(m);
      for n := 0 to NEW_BUCKET_COUNT
        invariant NewScan(m, n, 0, left)
      {
        for i := 0 to BUCKET_SIZE
          invariant NewScan(m, n, i, left)
        {
          NewCell(n, i);
          NewScanStep(m, n, i, left);
          if vvNew[n, i] != -1 {
            var id := vvNew[n, i];
            if id !in left {
              return -12, left;
            }
            NewScanKnown(m, n, i, left, id);
            if Position(hashing, key, true, n, mapInfo[id].address.service) != i {
              return -19, left;
            }
            left := OneLess(left, id);
          }
        }
        NewScanNextBucket(m, n, left);
      }
      NewScanEnd(m, left);
      code := 0;
    }

    /** The source's consistency check: zero exactly when the state passes and the key is set. */
    method Check() returns (code: int)
      requires Shape()
      ensures code == 0 <==> CheckPasses(State()) && key != 0
    {
      hide NewT, TriedT, TriedOk, EntriesPass, TriedIds, NewIds, NewTableOk;
      if |vRandom| != nTried + nNew {
        return -7;
      }
      var tried: set<int>, refs: map<int, int>;
      code, tried, refs := CheckEntries();
      if code != 0 {
        return;
      }
      if |tried| != nTried {
        return -9;
      }
      RefCountsSize(mapInfo);
      if |refs| != nNew {
        return -10;
      }
      var triedLeft: set<int>, refsLeft: map<int, int>;
      code, triedLeft := CheckTriedTable(tried);
      if code != 0 {
        return;
      }
      code, refsLeft := CheckNewTable(refs);
      if code != 0 {
        return;
      }
      if |triedLeft| != 0 {
        return -13;
      }
      if |refsLeft| != 0 {
        return -15;
      }
      if key == 0 {
        return -16;
      }
    }

    /** One call of the public interface. */
    method Execute(op: Op)
      requires Valid()
      modifies this, vvNew, vvTried
      ensures Valid()
      ensures old(TimesOk(mapInfo)) && PositiveTimes(op) ==> TimesOk(mapInfo)
      ensures forall s :: s in old(TriedT()) ==> s in TriedT()
      ensures key == old(key)
    {
      hide Consistent, CollisionsOk, NewT, TriedT, TimesOk, AddEffect, GoodEffect, FairlyReplaced;
      match op
      case OpAdd(addr, source, penalty, now, draw) =>
        var _ := Add(addr, source, penalty, now, draw);
      case OpGood(addr, test, time) =>
        ghost var m := State();
        ghost var before := collisions;
        Good(addr, test, time);
        if TimesOk(m.infos) && time > 0 {
          GoodTimes(m, State(), before, collisions, addr, test, time);
        }
        GoodKeepsSlots(m, State(), before, collisions, addr, test, time);
      case OpAttempt(addr, count, time) =>
        Attempt(addr, count, time);
      case OpConnected(addr, time) =>
        Connected(addr, time);
      case OpSetServices(addr, services) =>
        SetServices(addr, services);
      case OpGetAddr(now) =>
        ghost var before := mapInfo;
        var _ := GetAddr(now);
        SamePosTimes(before, mapInfo);
      case OpResolve(clock) =>
        ghost var _, _ := ResolveCollisions(clock);
      case OpSelect =>
        var _ := SelectTriedCollision();
    }

    /** Any sequence of calls. */
    method Run(ops: seq<Op>)
      requires Valid()
      modifies this, vvNew, vvTried
      ensures Valid()
      ensures old(TimesOk(mapInfo)) && (forall op :: op in ops ==> PositiveTimes(op)) ==> TimesOk(mapInfo)
      ensures forall s :: s in old(TriedT()) ==> s in TriedT()
      ensures key == old(key)
    {
      hide Consistent, CollisionsOk, NewT, TriedT, TimesOk;
      for i := 0 to |ops|
        invariant Valid()
        invariant old(TimesOk(mapInfo)) && (forall op :: op in ops ==> PositiveTimes(op)) ==> TimesOk(mapInfo)
        invariant forall s :: s in old(TriedT()) ==> s in TriedT()
        invariant key == old(key)
      {
        Execute(ops[i]);
      }
    }
  }

  /** A fresh manager survives every run: after any calls with any arguments and any random draws the structure is intact,
      and if every time passed in was positive (and the key is set) the source's own check reports nothing. */
  method RunFromFresh(hashing: Hashing, isRoutable: NetAddr -> bool, isValid: NetAddr -> bool, freshKey: int, ops: seq<Op>)
      returns (manager: AddrMan, code: int)
    ensures manager.Valid()
    ensures freshKey != 0 && (forall op :: op in ops ==> PositiveTimes(op)) ==> code == 0
  {
    hide Consistent, CollisionsOk, CheckPasses;
    manager := new AddrMan(hashing, isRoutable, isValid, freshKey);
    manager.Run(ops);
    code := manager.Check();
    if TimesOk(manager.mapInfo) {
      ConsistentPassesCheck(manager.State());
    }
  }

  /** Hashes under which every address has the same tried slot. */
  const ONE_SLOT := Hashing(
    (_, _) => 0,
    (_, _, _) => 0,
    (_, unseen, _, service: Service) => if unseen && service.ip > 0 then service.ip else 0)

  function Peer(ip: NetAddr): Address {
    Address(Service(ip, 7182), 1, 1000)
  }

  /** The address is known under the id one below it and untried, as its own announcement left it. */
  ghost predicate IsNew(m: Model, ip: NetAddr) {
    && ip in m.byAddr && m.byAddr[ip] == ip - 1 && ip - 1 in m.infos
    && SamePeer(m.infos[ip - 1], Newcomer(Peer(ip), ip, 0)) && !m.infos[ip - 1].inTried
  }

  lemma EmptyTables(m: Model)
    requires Consistent(m, {}, {}) && m.infos == map[]
    ensures m.byAddr == map[] && m.newT == map[] && m.triedT == map[]
  {
    hide IdsOk, OrderOk, CountsOk, RefsOk;
    NoAddresses(m.byAddr, m.infos);
    NoneLeft(m.newT, m.infos);
    NoneLeft(m.triedT, m.infos);
  }

  lemma NoAddresses(byAddr: map<NetAddr, int>, infos: map<int, Info>)
    requires infos == map[] && forall a :: a in byAddr ==> byAddr[a] in infos
    ensures byAddr == map[]
  {
    assert forall a :: a !in byAddr;
    assert byAddr.Keys == {};
  }

  lemma NoneLeft(t: Table, infos: map<int, Info>)
    requires infos == map[] && forall s :: s in t ==> t[s] in infos
    ensures t == map[]
  {
  }

  /** What the announcement does to the announcing address and to the other one. */
  lemma HeardOne(m: Model, n: Model, ip: NetAddr)
    requires m.hashing == ONE_SLOT && 1 <= ip <= 2 && m.idCount == ip - 1 && ip !in m.byAddr && (0, ip) !in m.newT
    requires AddEffect(m, n, Peer(ip), ip, 0, 1000, 0)
    ensures IsNew(n, ip) && n.newT == m.newT[(0, ip) := ip - 1] && (forall a :: a in n.byAddr ==> a in m.byAddr || a == ip)
    ensures forall a :: a != ip && IsNew(m, a) ==> IsNew(n, a)
  {
    assert SourceSlot(m, Peer(ip).service, ip) == (0, ip);
    forall a | a != ip && IsNew(m, a) ensures IsNew(n, a) {
      assert !IsTerrible(m.infos[m.byAddr[a]], 1000);
    }
  }

  /** Hears about an address from itself. */
  method HearOne(manager: AddrMan, ip: NetAddr)
    requires manager.Shape() && Consistent(manager.State(), {}, {}) && TimesOk(manager.mapInfo)
    requires manager.hashing == ONE_SLOT && manager.isRoutable(ip) && 1 <= ip <= 2
    requires manager.idCount == ip - 1 && ip !in manager.mapAddr && (0, ip) !in manager.NewT()
    modifies manager`idCount, manager`mapInfo, manager`mapAddr, manager`vRandom, manager`nNew, manager.vvNew
    ensures Consistent(manager.State(), {}, {}) && (old(manager.Valid()) ==> manager.Valid()) && TimesOk(manager.mapInfo)
    ensures manager.idCount == ip && IsNew(manager.State(), ip) && manager.NewT() == old(manager.NewT())[(0, ip) := ip - 1]
    ensures forall a :: a in manager.mapAddr ==> a in old(manager.mapAddr) || a == ip
    ensures forall a :: a != ip && IsNew(old(manager.State()), a) ==> IsNew(manager.State(), a)
  {
    hide Consistent, CollisionsOk, TimesOk, AddEffect, IsNew, AddrMan.NewT, AddrMan.TriedT;
    ghost var m := manager.State();
    var _ := manager.Add(Peer(ip), ip, 0, 1000, 0);
    HeardOne(m, manager.State(), ip);
  }

  method HearTwo(manager: AddrMan)
    requires manager.Shape() && Consistent(manager.State(), {}, {}) && manager.mapInfo == map[] && manager.idCount == 0
    requires manager.hashing == ONE_SLOT && manager.isRoutable(1) && manager.isRoutable(2)
    modifies manager`idCount, manager`mapInfo, manager`mapAddr, manager`vRandom, manager`nNew, manager.vvNew
    ensures Consistent(manager.State(), {}, {}) && (old(manager.Valid()) ==> manager.Valid()) && TimesOk(manager.mapInfo)
    ensures IsNew(manager.State(), 1) && IsNew(manager.State(), 2)
  {
    hide Consistent, CollisionsOk, IsNew, AddrMan.NewT, AddrMan.TriedT;
    EmptyTables(manager.State());
    HearOne(manager, 1);
    HearOne(manager, 2);
  }

  /** The first address takes the tried slot, the second finds it taken. */
  lemma GoodFirst(m: Model, n: Model, collisions: set<int>)
    requires m.hashing == ONE_SLOT && m.triedT == map[] && IsNew(m, 1) && IsNew(m, 2)
    requires GoodEffect(m, n, {}, collisions, Peer(1).service, true, 1000)
    ensures collisions == {} && (0, 0) in n.triedT && IsNew(n, 2)
  {
    assert TriedSlot(m.hashing, m.key, Peer(1).service) == (0, 0);
    var touched := Touched(m, 0, m.infos[0].(lastSuccess := 1000, lastTry := 1000, attempts := 0));
    var unplaced := n.(infos := n.infos[0 := n.infos[0].(inTried := false)], triedT := touched.triedT - {(0, 0)},
                       nTried := n.nTried - 1);
    assert unplaced == Removed(touched, 0);
    assert 1 in unplaced.infos && unplaced.infos[1] == m.infos[1];
  }

  lemma GoodSecond(m: Model, n: Model, collisions: set<int>)
    requires m.hashing == ONE_SLOT && (0, 0) in m.triedT && IsNew(m, 2)
    requires GoodEffect(m, n, {}, collisions, Peer(2).service, true, 1000)
    ensures collisions == {1}
  {
    assert TriedSlot(m.hashing, m.key, Peer(2).service) == (0, 0);
  }

  /** Two addresses compete for a tried slot. */
  method Compete(freshKey: int) returns (manager: AddrMan)
    ensures fresh(manager) && fresh(manager.vvNew) && fresh(manager.vvTried) && manager.Valid() && manager.collisions == {1}
    ensures manager.hashing == ONE_SLOT && manager.isRoutable(1) && manager.isRoutable(2)
  {
    hide Consistent, CollisionsOk, GoodEffect, IsNew, AddrMan.NewT, AddrMan.TriedT;
    manager := new AddrMan(ONE_SLOT, _ => true, _ => true, freshKey);
    EmptyTables(manager.State());
    HearTwo(manager);
    ghost var m := manager.State();
    manager.Good(Peer(1).service, true, 1000);
    GoodFirst(m, manager.State(), manager.collisions);
    m := manager.State();
    manager.Good(Peer(2).service, true, 1000);
    GoodSecond(m, manager.State(), manager.collisions);
  }

  /** An entry under the id that marks empty slots fails the source's check. */
  lemma NullEntryFails(m: Model)
    requires -1 in m.infos && m.infos[-1] == NULL_INFO
    ensures !CheckPasses(m)
  {
    hide TriedOk, NewTableOk;
    assert !EntryPasses(m.infos, m.byAddr, m.order, -1);
  }

  /** With the tried table empty the only recorded collision faces nobody. */
  lemma RecordFacesNobody(m: Model)
    requires m.triedT == map[] && IsNew(m, 2)
    ensures FacesNobody(m, {1}) && forall info :: !StandsInTheWay(m, {1}, info)
  {
    assert 1 in {1} && 1 in m.infos && TriedSlot(m.hashing, m.key, m.infos[1].address.service) !in m.triedT;
  }

  /** Clearing keeps the recorded collisions, so a record of before can come to name an entry of after: two addresses compete
      for a tried slot, the manager is cleared and hears about the same two again. The source's check finds nothing wrong, but
      asking whom the recorded entry competes with enters a null entry, and then the check fails. */
  method ClearedCollision(freshKey: int) returns (manager: AddrMan, before: int, r: Option<Info>, after: int)
    requires freshKey != 0
    ensures before == 0 && r == Some(NULL_INFO) && -1 in manager.mapInfo && after != 0
  {
    hide Consistent, CollisionsOk, CheckPasses, IsNew, FacesNobody, StandsInTheWay, AddrMan.NewT, AddrMan.TriedT;
    manager := Compete(freshKey);
    manager.Clear(freshKey);
    assert !manager.Valid();
    HearTwo(manager);
    ConsistentPassesCheck(manager.State());
    before := manager.Check();
    RecordFacesNobody(manager.State());
    SecondIsEntered(manager.State());
    r := manager.SelectTriedCollision();
    NullEntryFails(manager.State());
    after := manager.Check();
  }

  lemma SecondIsEntered(m: Model)
    requires IsNew(m, 2)
    ensures 1 in m.infos
  {
  }
}

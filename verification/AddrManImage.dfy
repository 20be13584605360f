/**
  Saving the address manager and loading it again. Only part of each entry is stored; the ids, the address index, the random
  list, the tried slots and the reference counts are rebuilt from it. An `Image` is a stored manager with its bytes parsed.
 */
module AddressImage {

  import opened AddressManager

  const KEY_SIZE: int := 32

  /** What is stored of an entry. */
  datatype Stored = Stored(address: Address, source: NetAddr, lastSuccess: int, attempts: int)

  datatype Image = Image(version: int, keySize: int, key: int, unseen: seq<Stored>, tried: seq<Stored>, buckets: seq<seq<int>>)

  function Store(info: Info): Stored {
    Stored(info.address, info.source, info.lastSuccess, info.attempts)
  }

  function Load(entry: Stored): Info {
    Info(entry.address, entry.source, 0, 0, entry.lastSuccess, entry.attempts, 0, false, -1)
  }

  // ----- loading, step by step -----

  /** One more untried entry, with no reference yet. */
  function Enter(m: Model, info: Info): Model {
    m.(infos := m.infos[m.idCount := info.(randomPos := |m.order|)],
       byAddr := m.byAddr[info.address.service.ip := m.idCount],
       order := m.order + [m.idCount], idCount := m.idCount + 1, nNew := m.nNew + 1)
  }

  /** One more entry in its tried slot. */
  function EnterTried(m: Model, info: Info): Model {
    m.(infos := m.infos[m.idCount := info.(inTried := true, randomPos := |m.order|)],
       byAddr := m.byAddr[info.address.service.ip := m.idCount],
       order := m.order + [m.idCount], idCount := m.idCount + 1, nTried := m.nTried + 1,
       triedT := m.triedT[TriedSlot(m.hashing, m.key, info.address.service) := m.idCount])
  }

  /** One more reference to entry `id`, from new bucket `b`. */
  function Place(m: Model, b: int, id: int): Model
    requires id in m.infos
  {
    m.(infos := m.infos[id := m.infos[id].(refCount := m.infos[id].refCount + 1)],
       newT := m.newT[NewSlot(m.hashing, m.key, b, m.infos[id].address.service) := id])
  }

  /** The stored places in the new table can be used. */
  predicate Usable(image: Image) {
    image.version == 1 && |image.buckets| == NEW_BUCKET_COUNT
  }

  /** Where they cannot, an entry gets a reference from the bucket for its own source, if the slot is free. */
  function ReadNew(m: Model, entry: Stored, usable: bool): Model {
    var info := Load(entry);
    if !usable && HomeSlot(m.hashing, m.key, info) !in m.newT
    then Place(Enter(m, info), NewBucket(m.hashing, m.key, info.address.service, info.source), m.idCount)
    else Enter(m, info)
  }

  function ReadNews(m: Model, entries: seq<Stored>, usable: bool): Model {
    if entries == [] then m
    else ReadNew(ReadNews(m, entries[..|entries| - 1], usable), entries[|entries| - 1], usable)
  }

  /** An entry whose tried slot is taken is lost. */
  function ReadTried(m: Model, entry: Stored): Model {
    if TriedSlot(m.hashing, m.key, entry.address.service) in m.triedT then m else EnterTried(m, Load(entry))
  }

  function ReadTrieds(m: Model, entries: seq<Stored>): Model {
    if entries == [] then m else ReadTried(ReadTrieds(m, entries[..|entries| - 1]), entries[|entries| - 1])
  }

  /** A stored place is used if it names one of the first `n` entries, the slot is free and the entry has room for it. */
  predicate CanPlace(m: Model, n: int, b: int, index: int) {
    && 0 <= index < n && index in m.infos
    && NewSlot(m.hashing, m.key, b, m.infos[index].address.service) !in m.newT
    && m.infos[index].refCount < NEW_BUCKETS_PER_ADDRESS
  }

  function ReadRow(m: Model, n: int, b: int, row: seq<int>): Model {
    if row == [] then m
    else
      var before := ReadRow(m, n, b, row[..|row| - 1]);
      if CanPlace(before, n, b, row[|row| - 1]) then Place(before, b, row[|row| - 1]) else before
  }

  function ReadRows(m: Model, n: int, rows: seq<seq<int>>): Model {
    if rows == [] then m else ReadRow(ReadRows(m, n, rows[..|rows| - 1]), n, |rows| - 1, rows[|rows| - 1])
  }

  function Blank(hashing: Hashing, key: int): Model {
    Model(hashing, key, map[], map[], [], 0, 0, 0, map[], map[])
  }

  /** Everything read, before the entries left without a place are dropped. */
  function ReadAll(hashing: Hashing, image: Image): Model {
    var entered := ReadTrieds(ReadNews(Blank(hashing, image.key), image.unseen, Usable(image)), image.tried);
    if Usable(image) then ReadRows(entered, |image.unseen|, image.buckets) else entered
  }

  // ----- what each step keeps -----

  /** The untried entries without a reference. */
  ghost function Unplaced(infos: map<int, Info>): set<int> {
    set id | id in infos && !infos[id].inTried && infos[id].refCount == 0
  }

  /** In order, except that the address index may be wrong and untried entries may be without a reference. */
  ghost predicate Framed(m: Model) {
    && IdsOk(m.infos, m.idCount)
    && OrderOk(m.infos, m.order)
    && CountsOk(m.infos, m.nNew, m.nTried, {})
    && NewSlotsOk(m.hashing, m.key, m.infos, m.newT)
    && RefsOk(m.infos, m.newT, Unplaced(m.infos))
    && TriedOk(m.hashing, m.key, m.infos, m.triedT)
  }

  /** The address index covers the entries and names entries with that address. */
  ghost predicate Covered(m: Model) {
    && (forall id :: id in m.infos ==> m.infos[id].address.service.ip in m.byAddr)
    && (forall a :: a in m.byAddr ==> m.byAddr[a] in m.infos && m.infos[m.byAddr[a]].address.service.ip == a)
  }

  lemma BlankFramed(hashing: Hashing, key: int)
    ensures Framed(Blank(hashing, key)) && Covered(Blank(hashing, key))
  {
    var m := Blank(hashing, key);
    assert TriedIds(m.infos) == {} && NewIds(m.infos) == {};
  }

  lemma EnterFramed(m: Model, info: Info)
    requires Framed(m) && info.refCount == 0 && !info.inTried
    ensures Framed(Enter(m, info))
  {
    hide OrderOk, NewSlotsOk, RefsOk, TriedOk;
    var entry := info.(randomPos := |m.order|);
    var n := Enter(m, info);
    PushOrder(m.infos, m.order, m.idCount, entry);
    TablesGrow(m.hashing, m.key, m.infos, m.idCount, entry, m.newT, m.triedT, Unplaced(m.infos));
    assert Unplaced(n.infos) == Unplaced(m.infos) + {m.idCount};
    assert NewIds(m.infos) - {} == NewIds(m.infos) && NewIds(n.infos) - {} == NewIds(m.infos) + {m.idCount};
  }

  lemma TriedGrow(h: Hashing, key: int, infos: map<int, Info>, id: int, info: Info, triedT: Table)
    requires TriedOk(h, key, infos, triedT) && id !in infos && info.inTried
    requires TriedSlot(h, key, info.address.service) !in triedT
    ensures TriedOk(h, key, infos[id := info], triedT[TriedSlot(h, key, info.address.service) := id])
  {
  }

  lemma NewKept(h: Hashing, key: int, infos: map<int, Info>, id: int, info: Info, newT: Table)
    requires NewSlotsOk(h, key, infos, newT) && RefsOk(infos, newT, Unplaced(infos)) && id !in infos
    requires info.inTried && info.refCount == 0
    ensures var more := infos[id := info];
      && NewSlotsOk(h, key, more, newT) && RefsOk(more, newT, Unplaced(more))
      && NewIds(more) == NewIds(infos) && TriedIds(more) == TriedIds(infos) + {id}
  {
    hide TriedSlot;
    assert SlotsOf(newT, id) == {};
    assert Unplaced(infos[id := info]) == Unplaced(infos);
  }

  lemma EnterTriedFramed(m: Model, info: Info)
    requires Framed(m) && info.refCount == 0 && TriedSlot(m.hashing, m.key, info.address.service) !in m.triedT
    ensures Framed(EnterTried(m, info))
  {
    hide OrderOk, NewSlotsOk, RefsOk, TriedOk, TriedSlot;
    var entry := info.(inTried := true, randomPos := |m.order|);
    PushOrder(m.infos, m.order, m.idCount, entry);
    TriedGrow(m.hashing, m.key, m.infos, m.idCount, entry, m.triedT);
    NewKept(m.hashing, m.key, m.infos, m.idCount, entry, m.newT);
  }

  lemma PlaceFramed(m: Model, b: int, id: int)
    requires Framed(m) && id in m.infos && !m.infos[id].inTried && m.infos[id].refCount < NEW_BUCKETS_PER_ADDRESS
    requires 0 <= b < NEW_BUCKET_COUNT && NewSlot(m.hashing, m.key, b, m.infos[id].address.service) !in m.newT
    ensures Framed(Place(m, b, id))
  {
    hide OrderOk, NewSlotsOk, TriedOk, NewSlot;
    var n := Place(m, b, id);
    assert m.infos[id].refCount >= 0;
    RefsRaise(m.infos, m.newT, NewSlot(m.hashing, m.key, b, m.infos[id].address.service), id, Unplaced(m.infos));
    hide RefsOk;
    assert SameTables(m.infos, n.infos);
    OrderFrame(m.infos, n.infos, m.order);
    TablesFrame(m.hashing, m.key, m.infos, n.infos, m.newT, m.triedT);
    NewSlotFilled(m.hashing, m.key, n.infos, m.newT, b, id);
    assert Unplaced(n.infos) == Unplaced(m.infos) - {id};
  }

  // ----- the whole reading -----

  /** Only the first `n` entries are untried, and bucket positions refer to them. */
  ghost predicate Reading(m: Model, n: int) {
    && Framed(m) && Covered(m)
    && 0 <= n <= m.idCount && (forall id :: 0 <= id < m.idCount <==> id in m.infos)
    && (forall id :: id in m.infos ==> (m.infos[id].inTried <==> n <= id))
  }

  lemma HomeIsNew(h: Hashing, key: int, info: Info)
    ensures HomeSlot(h, key, info) ==
            NewSlot(h, key, NewBucket(h, key, info.address.service, info.source), info.address.service)
  {
  }

  lemma ReadNewFramed(m: Model, entry: Stored, usable: bool)
    requires Reading(m, m.idCount)
    ensures Reading(ReadNew(m, entry, usable), m.idCount + 1) && ReadNew(m, entry, usable).idCount == m.idCount + 1
    ensures ReadNew(m, entry, usable).nNew == m.nNew + 1 && ReadNew(m, entry, usable).nTried == m.nTried
  {
    hide Framed, HomeSlot, NewSlot;
    var info := Load(entry);
    EnterFramed(m, info);
    var n := Enter(m, info);
    if !usable && HomeSlot(m.hashing, m.key, info) !in m.newT {
      assert HomeSlot(m.hashing, m.key, info) ==
        NewSlot(m.hashing, m.key, NewBucket(m.hashing, m.key, info.address.service, info.source), info.address.service)
        by { HomeIsNew(m.hashing, m.key, info); }
      PlaceFramed(n, NewBucket(m.hashing, m.key, info.address.service, info.source), m.idCount);
    }
  }

  lemma {:induction false} ReadNewsFramed(m: Model, entries: seq<Stored>, usable: bool)
    requires Reading(m, m.idCount)
    ensures ReadNews(m, entries, usable).idCount == m.idCount + |entries|
    ensures ReadNews(m, entries, usable).nNew == m.nNew + |entries| && ReadNews(m, entries, usable).nTried == m.nTried
    ensures Reading(ReadNews(m, entries, usable), m.idCount + |entries|)
    decreases |entries|
  {
    hide Reading, ReadNew;
    if entries != [] {
      ReadNewsFramed(m, entries[..|entries| - 1], usable);
      ReadNewFramed(ReadNews(m, entries[..|entries| - 1], usable), entries[|entries| - 1], usable);
    }
  }

  lemma ReadTriedFramed(m: Model, n: int, entry: Stored)
    requires Reading(m, n)
    ensures Reading(ReadTried(m, entry), n) && ReadTried(m, entry).nNew == m.nNew
  {
    hide Framed, TriedSlot;
    if TriedSlot(m.hashing, m.key, entry.address.service) !in m.triedT {
      EnterTriedFramed(m, Load(entry));
    }
  }

  lemma {:induction false} ReadTriedsFramed(m: Model, n: int, entries: seq<Stored>)
    requires Reading(m, n)
    ensures Reading(ReadTrieds(m, entries), n) && ReadTrieds(m, entries).nNew == m.nNew
    decreases |entries|
  {
    hide Reading, ReadTried;
    if entries != [] {
      ReadTriedsFramed(m, n, entries[..|entries| - 1]);
      ReadTriedFramed(ReadTrieds(m, entries[..|entries| - 1]), n, entries[|entries| - 1]);
    }
  }

  predicate SameCounts(m: Model, n: Model) {
    m.nNew == n.nNew && m.nTried == n.nTried && m.idCount == n.idCount
  }

  lemma PlaceReading(m: Model, n: int, b: int, index: int)
    requires Reading(m, n) && 0 <= b < NEW_BUCKET_COUNT && CanPlace(m, n, b, index)
    ensures Reading(Place(m, b, index), n) && SameCounts(Place(m, b, index), m)
  {
    hide Framed, NewSlot;
    PlaceFramed(m, b, index);
  }

  lemma {:induction false} ReadRowFramed(m: Model, n: int, b: int, row: seq<int>)
    requires Reading(m, n) && 0 <= b < NEW_BUCKET_COUNT
    ensures Reading(ReadRow(m, n, b, row), n) && SameCounts(ReadRow(m, n, b, row), m)
    decreases |row|
  {
    hide Reading, CanPlace, Place;
    if row != [] {
      ReadRowFramed(m, n, b, row[..|row| - 1]);
      var before := ReadRow(m, n, b, row[..|row| - 1]);
      if CanPlace(before, n, b, row[|row| - 1]) {
        PlaceReading(before, n, b, row[|row| - 1]);
      }
    }
  }

  lemma {:induction false} ReadRowsFramed(m: Model, n: int, rows: seq<seq<int>>)
    requires Reading(m, n) && |rows| <= NEW_BUCKET_COUNT
    ensures Reading(ReadRows(m, n, rows), n) && SameCounts(ReadRows(m, n, rows), m)
    decreases |rows|
  {
    hide Reading, ReadRow;
    if rows != [] {
      ReadRowsFramed(m, n, rows[..|rows| - 1]);
      ReadRowFramed(ReadRows(m, n, rows[..|rows| - 1]), n, |rows| - 1, rows[|rows| - 1]);
    }
  }

  lemma ReadAllFramed(hashing: Hashing, image: Image)
    ensures Reading(ReadAll(hashing, image), |image.unseen|)
  {
    hide Reading, ReadNews, ReadTrieds, ReadRows;
    var blank := Blank(hashing, image.key);
    BlankReading(hashing, image.key);
    var news := ReadNews(blank, image.unseen, Usable(image));
    ReadNewsFramed(blank, image.unseen, Usable(image));
    ReadTriedsFramed(news, |image.unseen|, image.tried);
    if Usable(image) {
      ReadRowsFramed(ReadTrieds(news, image.tried), |image.unseen|, image.buckets);
    }
  }

  // ----- dropping what has no place -----

  ghost function Addresses(infos: map<int, Info>, ids: set<int>): set<NetAddr>
    requires ids <= infos.Keys
  {
    set id | id in ids :: infos[id].address.service.ip
  }

  /** The entries `gone` were dropped from `m`, each together with what the index has for its address. */
  ghost predicate Dropped(m: Model, n: Model, gone: set<int>) {
    && gone <= m.infos.Keys
    && n == m.(infos := n.infos, byAddr := n.byAddr, order := n.order, nNew := n.nNew)
    && n.infos.Keys == m.infos.Keys - gone
    && (forall id :: id in n.infos ==> SameButPos(n.infos[id], m.infos[id]))
    && n.byAddr == m.byAddr - Addresses(m.infos, gone)
    && OrderOk(n.infos, n.order)
    && n.nNew == m.nNew - |gone|
  }

  /** No entry that is kept shares its address with another entry that was read. */
  ghost predicate NoRivals(m: Model) {
    forall id, k :: id in m.infos && id !in Unplaced(m.infos) && k in m.infos && k != id ==>
      m.infos[id].address.service.ip != m.infos[k].address.service.ip
  }

  predicate SameRole(a: Info, b: Info) {
    a.address == b.address && a.refCount == b.refCount && a.inTried == b.inTried
  }

  /** The entries with a place are kept, in their roles. */
  ghost predicate Kept(infos: map<int, Info>, kept: map<int, Info>) {
    && kept.Keys == infos.Keys - Unplaced(infos)
    && (forall id :: id in kept ==> SameRole(kept[id], infos[id]))
  }

  lemma KeptEntry(infos: map<int, Info>, kept: map<int, Info>, id: int)
    requires Kept(infos, kept)
    ensures id in kept <==> id in infos && (infos[id].inTried || infos[id].refCount != 0)
    ensures id in kept ==> SameRole(kept[id], infos[id])
  {
    assert id in kept.Keys <==> id in infos.Keys - Unplaced(infos);
  }

  lemma KeptNew(h: Hashing, key: int, infos: map<int, Info>, kept: map<int, Info>, t: Table)
    requires NewSlotsOk(h, key, infos, t) && RefsOk(infos, t, Unplaced(infos)) && Kept(infos, kept)
    ensures NewSlotsOk(h, key, kept, t) && RefsOk(kept, t, {})
  {
    hide NewSlot, Kept;
    forall s | s in t
      ensures t[s] in kept && !kept[t[s]].inTried && s == NewSlot(h, key, s.0, kept[t[s]].address.service)
    {
      assert s in SlotsOf(t, t[s]);
      KeptEntry(infos, kept, t[s]);
    }
    forall id | id in kept
      ensures kept[id].refCount == |SlotsOf(t, id)| <= NEW_BUCKETS_PER_ADDRESS && (kept[id].inTried || kept[id].refCount > 0)
    {
      KeptEntry(infos, kept, id);
    }
  }

  lemma KeptTried(h: Hashing, key: int, infos: map<int, Info>, kept: map<int, Info>, t: Table)
    requires TriedOk(h, key, infos, t) && Kept(infos, kept)
    ensures TriedOk(h, key, kept, t)
  {
    hide TriedSlot, Kept;
    forall s | s in t
      ensures t[s] in kept && kept[t[s]].inTried && s == TriedSlot(h, key, kept[t[s]].address.service)
    {
      KeptEntry(infos, kept, t[s]);
    }
    forall id | id in kept && kept[id].inTried
      ensures TriedSlot(h, key, kept[id].address.service) in t && t[TriedSlot(h, key, kept[id].address.service)] == id
    {
      KeptEntry(infos, kept, id);
    }
  }

  lemma KeptSets(infos: map<int, Info>, kept: map<int, Info>)
    requires Kept(infos, kept)
    ensures TriedIds(kept) == TriedIds(infos) && NewIds(kept) == NewIds(infos) - Unplaced(infos)
    ensures Unplaced(infos) <= NewIds(infos)
  {
    hide Kept;
    forall id
      ensures id in TriedIds(kept) <==> id in TriedIds(infos)
      ensures id in NewIds(kept) <==> id in NewIds(infos) - Unplaced(infos)
    {
      KeptEntry(infos, kept, id);
    }
  }

  lemma DroppedKept(m: Model, n: Model)
    requires Dropped(m, n, Unplaced(m.infos))
    ensures Kept(m.infos, n.infos)
  {
    hide OrderOk, Unplaced;
  }

  lemma DroppedStructure(m: Model, n: Model)
    requires Framed(m) && Dropped(m, n, Unplaced(m.infos))
    ensures NewSlotsOk(n.hashing, n.key, n.infos, n.newT) && RefsOk(n.infos, n.newT, {})
    ensures TriedOk(n.hashing, n.key, n.infos, n.triedT)
    ensures CountsOk(n.infos, n.nNew, n.nTried, {}) && IdsOk(n.infos, n.idCount)
  {
    hide OrderOk, NewSlotsOk, RefsOk, TriedOk, Unplaced, Addresses, Kept, TriedIds, NewIds, SameButPos;
    DroppedKept(m, n);
    KeptNew(m.hashing, m.key, m.infos, n.infos, m.newT);
    KeptTried(m.hashing, m.key, m.infos, n.infos, m.triedT);
    KeptSets(m.infos, n.infos);
    assert NewIds(n.infos) - {} == NewIds(n.infos) && NewIds(m.infos) - {} == NewIds(m.infos);
    forall id | id in n.infos ensures 0 <= id < n.idCount {
      assert id in n.infos.Keys;
    }
  }

  /** With the unplaced entries dropped, the index is right exactly when no kept entry has a rival. */
  lemma DroppedIndex(m: Model, n: Model)
    requires Covered(m) && Dropped(m, n, Unplaced(m.infos))
    ensures AddrOk(n.infos, n.byAddr) <==> NoRivals(m)
  {
    hide OrderOk, Kept, SameButPos;
    DroppedKept(m, n);
    if NoRivals(m) {
      RightIndex(m, n);
    }
    if AddrOk(n.infos, n.byAddr) {
      forall id, k | id in m.infos && id !in Unplaced(m.infos) && k in m.infos && k != id
        ensures m.infos[id].address.service.ip != m.infos[k].address.service.ip
      {
        Apart(m, n, id, k);
      }
    }
  }

  lemma Apart(m: Model, n: Model, id: int, k: int)
    requires Dropped(m, n, Unplaced(m.infos)) && AddrOk(n.infos, n.byAddr)
    requires id in m.infos && id !in Unplaced(m.infos) && k in m.infos && k != id
    ensures m.infos[id].address.service.ip != m.infos[k].address.service.ip
  {
    DroppedKept(m, n);
    KeptEntry(m.infos, n.infos, id);
    KeptEntry(m.infos, n.infos, k);
    if k in Unplaced(m.infos) {
      InAddresses(m.infos, Unplaced(m.infos), k);
    }
    hide OrderOk, Kept, SameButPos, Addresses;
  }

  lemma RightIndex(m: Model, n: Model)
    requires Covered(m) && Dropped(m, n, Unplaced(m.infos)) && NoRivals(m)
    ensures AddrOk(n.infos, n.byAddr)
  {
    hide OrderOk, SameButPos, Unplaced, Addresses, Kept;
    DroppedKept(m, n);
    forall id | id in n.infos
      ensures n.infos[id].address.service.ip in n.byAddr && n.byAddr[n.infos[id].address.service.ip] == id
    {
      KeptEntry(m.infos, n.infos, id);
      StillIndexed(m, id);
    }
    forall a | a in n.byAddr ensures n.byAddr[a] in n.infos && n.infos[n.byAddr[a]].address.service.ip == a {
      NotDropped(m, Unplaced(m.infos), a);
      assert m.byAddr[a] in n.infos.Keys;
      KeptEntry(m.infos, n.infos, m.byAddr[a]);
    }
  }

  lemma StillIndexed(m: Model, id: int)
    requires Covered(m) && NoRivals(m) && id in m.infos && (m.infos[id].inTried || m.infos[id].refCount != 0)
    ensures var a := m.infos[id].address.service.ip;
      a in m.byAddr && m.byAddr[a] == id && a !in Addresses(m.infos, Unplaced(m.infos))
  {
  }

  lemma NotDropped(m: Model, gone: set<int>, a: NetAddr)
    requires Covered(m) && gone <= m.infos.Keys && a in m.byAddr - Addresses(m.infos, gone)
    ensures m.byAddr[a] !in gone
  {
    if m.byAddr[a] in gone {
      InAddresses(m.infos, gone, m.byAddr[a]);
    }
  }

  lemma InAddresses(infos: map<int, Info>, ids: set<int>, id: int)
    requires ids <= infos.Keys && id in ids
    ensures id in infos && infos[id].address.service.ip in Addresses(infos, ids)
  {
  }

  /** What was read is in order exactly when no entry that is kept shares its address with another one read. */
  lemma LoadedInOrder(m: Model, n: Model)
    requires Framed(m) && Covered(m) && Dropped(m, n, Unplaced(m.infos))
    ensures Consistent(n, {}, {}) <==> NoRivals(m)
  {
    DroppedStructure(m, n);
    DroppedIndex(m, n);
    hide IdsOk, AddrOk, CountsOk, NewSlotsOk, RefsOk, TriedOk, Framed, Covered, NoRivals;
  }

  // ----- images without repeated addresses -----

  /** The addresses of some stored entries. */
  function AddressesOf(entries: seq<Stored>): set<NetAddr> {
    set e | e in entries :: e.address.service.ip
  }

  /** No two of them have the same address. */
  predicate Different(entries: seq<Stored>) {
    forall i, j :: 0 <= i < j < |entries| ==> entries[i].address.service.ip != entries[j].address.service.ip
  }

  lemma DifferentLast(entries: seq<Stored>)
    requires entries != [] && Different(entries)
    ensures var (fewer, last) := (entries[..|entries| - 1], entries[|entries| - 1]);
      && Different(fewer) && last.address.service.ip !in AddressesOf(fewer)
      && AddressesOf(entries) == AddressesOf(fewer) + {last.address.service.ip}
  {
    var (fewer, last) := (entries[..|entries| - 1], entries[|entries| - 1]);
    assert entries == fewer + [last];
    forall e | e in fewer ensures e.address.service.ip != last.address.service.ip {
      var i :| 0 <= i < |fewer| && fewer[i] == e;
      assert entries[i] == e;
    }
  }

  lemma DifferentParts(a: seq<Stored>, b: seq<Stored>)
    requires Different(a + b)
    ensures Different(a) && Different(b) && AddressesOf(a) * AddressesOf(b) == {}
  {
    assert forall i :: 0 <= i < |a| ==> (a + b)[i] == a[i];
    assert forall j :: 0 <= j < |b| ==> (a + b)[|a| + j] == b[j];
    forall e, f | e in a && f in b ensures e.address.service.ip != f.address.service.ip {
      var i :| 0 <= i < |a| && a[i] == e;
      var j :| 0 <= j < |b| && b[j] == f;
      assert (a + b)[i] == e && (a + b)[|a| + j] == f;
    }
  }

  /** The entries have addresses out of `known`, no two the same. */
  ghost predicate Separate(infos: map<int, Info>, known: set<NetAddr>) {
    && (forall id :: id in infos ==> infos[id].address.service.ip in known)
    && (forall id, k :: id in infos && k in infos && id != k ==>
          infos[id].address.service.ip != infos[k].address.service.ip)
  }

  lemma SeparateMore(infos: map<int, Info>, known: set<NetAddr>, id: int, info: Info)
    requires Separate(infos, known) && info.address.service.ip !in known
    ensures Separate(infos[id := info], known + {info.address.service.ip})
  {
  }

  lemma Outside(some: set<NetAddr>, known: set<NetAddr>, a: NetAddr)
    requires some * known == {} && a in some
    ensures a !in known
  {
    assert a in known ==> a in some * known;
  }

  lemma SeparateGrows(infos: map<int, Info>, known: set<NetAddr>, more: set<NetAddr>)
    requires Separate(infos, known) && known <= more
    ensures Separate(infos, more)
  {
  }

  lemma SeparatePlace(m: Model, b: int, id: int, known: set<NetAddr>)
    requires id in m.infos && Separate(m.infos, known)
    ensures Separate(Place(m, b, id).infos, known)
  {
    hide NewSlot;
    var infos := Place(m, b, id).infos;
    forall k ensures k in infos ==> k in m.infos && infos[k].address == m.infos[k].address {
    }
  }

  lemma {:induction false} NewsSeparate(m: Model, entries: seq<Stored>, usable: bool, known: set<NetAddr>)
    requires Separate(m.infos, known) && Different(entries) && AddressesOf(entries) * known == {}
    ensures Separate(ReadNews(m, entries, usable).infos, known + AddressesOf(entries))
    decreases |entries|
  {
    hide Separate, Different, AddressesOf, NewSlot, HomeSlot, NewBucket, Place;
    if entries == [] {
      SeparateGrows(m.infos, known, known + AddressesOf(entries));
    } else {
      var fewer := entries[..|entries| - 1];
      var info := Load(entries[|entries| - 1]);
      DifferentLast(entries);
      NewsSeparate(m, fewer, usable, known);
      var n := ReadNews(m, fewer, usable);
      assert known + AddressesOf(entries) == known + AddressesOf(fewer) + {info.address.service.ip};
      Outside(AddressesOf(entries), known, info.address.service.ip);
      SeparateMore(n.infos, known + AddressesOf(fewer), n.idCount, info.(randomPos := |n.order|));
      var b := NewBucket(n.hashing, n.key, info.address.service, info.source);
      SeparatePlace(Enter(n, info), b, n.idCount, known + AddressesOf(entries));
    }
  }

  lemma {:induction false} TriedsSeparate(m: Model, entries: seq<Stored>, known: set<NetAddr>)
    requires Separate(m.infos, known) && Different(entries) && AddressesOf(entries) * known == {}
    ensures Separate(ReadTrieds(m, entries).infos, known + AddressesOf(entries))
    decreases |entries|
  {
    hide Separate, Different, AddressesOf, TriedSlot;
    if entries == [] {
      SeparateGrows(m.infos, known, known + AddressesOf(entries));
    } else {
      var fewer := entries[..|entries| - 1];
      var info := Load(entries[|entries| - 1]);
      DifferentLast(entries);
      TriedsSeparate(m, fewer, known);
      var n := ReadTrieds(m, fewer);
      assert known + AddressesOf(entries) == known + AddressesOf(fewer) + {info.address.service.ip};
      Outside(AddressesOf(entries), known, info.address.service.ip);
      SeparateMore(n.infos, known + AddressesOf(fewer), n.idCount, info.(inTried := true, randomPos := |n.order|));
      SeparateGrows(n.infos, known + AddressesOf(fewer), known + AddressesOf(entries));
    }
  }

  lemma {:induction false} RowSeparate(m: Model, n: int, b: int, row: seq<int>, known: set<NetAddr>)
    requires Separate(m.infos, known)
    ensures Separate(ReadRow(m, n, b, row).infos, known)
    decreases |row|
  {
    hide Separate, NewSlot, Place;
    if row != [] {
      RowSeparate(m, n, b, row[..|row| - 1], known);
      var before := ReadRow(m, n, b, row[..|row| - 1]);
      if CanPlace(before, n, b, row[|row| - 1]) {
        SeparatePlace(before, b, row[|row| - 1], known);
      }
    }
  }

  lemma {:induction false} RowsSeparate(m: Model, n: int, rows: seq<seq<int>>, known: set<NetAddr>)
    requires Separate(m.infos, known)
    ensures Separate(ReadRows(m, n, rows).infos, known)
    decreases |rows|
  {
    hide Separate, ReadRow;
    if rows != [] {
      RowsSeparate(m, n, rows[..|rows| - 1], known);
      RowSeparate(ReadRows(m, n, rows[..|rows| - 1]), n, |rows| - 1, rows[|rows| - 1], known);
    }
  }

  /** An image in which no address occurs twice leaves no rivals, whatever else it holds. */
  lemma DifferentNoRivals(hashing: Hashing, image: Image)
    requires Different(image.unseen + image.tried)
    ensures NoRivals(ReadAll(hashing, image))
  {
    var blank := Blank(hashing, image.key);
    var known := AddressesOf(image.unseen) + AddressesOf(image.tried);
    assert Separate(blank.infos, {});
    SeparateNoRivals(ReadAll(hashing, image), known);
    hide Separate, Different, AddressesOf, ReadNews, ReadTrieds, ReadRows, NoRivals;
    DifferentParts(image.unseen, image.tried);
    NewsSeparate(blank, image.unseen, Usable(image), {});
    var news := ReadNews(blank, image.unseen, Usable(image));
    assert {} + AddressesOf(image.unseen) == AddressesOf(image.unseen);
    TriedsSeparate(news, image.tried, AddressesOf(image.unseen));
    RowsSeparate(ReadTrieds(news, image.tried), |image.unseen|, image.buckets, known);
  }

  lemma SeparateNoRivals(m: Model, known: set<NetAddr>)
    ensures Separate(m.infos, known) ==> NoRivals(m)
  {
  }

  /** What is left of an image after dropping is in order exactly when no entry that is kept has a rival, and so it is
      whenever no address is stored twice. */
  lemma LoadedImage(hashing: Hashing, image: Image, n: Model)
    requires Dropped(ReadAll(hashing, image), n, Unplaced(ReadAll(hashing, image).infos))
    ensures Consistent(n, {}, {}) <==> NoRivals(ReadAll(hashing, image))
    ensures Different(image.unseen + image.tried) ==> Consistent(n, {}, {})
  {
    hide Consistent, Dropped, NoRivals, ReadAll, Different, Framed, Covered;
    ReadAllFramed(hashing, image);
    LoadedInOrder(ReadAll(hashing, image), n);
    if Different(image.unseen + image.tried) {
      DifferentNoRivals(hashing, image);
    }
  }

  // ----- loading -----

  /** The manager has read `m`, counters and next id apart. */
  ghost predicate Mirrors(s: Model, m: Model) {
    s == m.(nNew := s.nNew, nTried := s.nTried, idCount := s.idCount)
  }

  method LoadNew(manager: AddrMan, n: nat, entry: Stored, usable: bool, ghost m: Model)
    requires manager.Shape() && Mirrors(manager.State(), m) && m.idCount == n
    modifies manager`mapInfo, manager`mapAddr, manager`vRandom, manager.vvNew
    ensures Mirrors(manager.State(), ReadNew(m, entry, usable))
  {
    hide AddrMan.NewT, AddrMan.TriedT, NewSlot;
    var info := Load(entry);
    var service := info.address.service;
    manager.mapAddr := manager.mapAddr[service.ip := n];
    info := info.(randomPos := |manager.vRandom|);
    manager.vRandom := manager.vRandom + [n];
    manager.mapInfo := manager.mapInfo[n := info];
    if !usable {
      var b := NewBucket(manager.hashing, manager.key, service, info.source);
      var p := Position(manager.hashing, manager.key, true, b, service);
      SlotAt(manager.hashing, manager.key, b, service);
      HomeIsNew(manager.hashing, manager.key, Load(entry));
      manager.NewCell(b, p);
      if manager.vvNew[b, p] == -1 {
        manager.SetNew(b, p, n);
        manager.mapInfo := manager.mapInfo[n := info.(refCount := info.refCount + 1)];
      }
    }
  }

  lemma SlotAt(h: Hashing, key: int, b: int, service: Service)
    ensures NewSlot(h, key, b, service) == (b, Position(h, key, true, b, service))
  {
  }

  method LoadTried(manager: AddrMan, entry: Stored, ghost m: Model) returns (lost: bool)
    requires manager.Shape() && Mirrors(manager.State(), m) && m.idCount == manager.idCount >= 0
    modifies manager`mapInfo, manager`mapAddr, manager`vRandom, manager`idCount, manager.vvTried
    ensures Mirrors(manager.State(), ReadTried(m, entry)) && ReadTried(m, entry).idCount == manager.idCount >= 0
    ensures ReadTried(m, entry).nTried == m.nTried + if lost then 0 else 1
  {
    hide AddrMan.NewT, AddrMan.TriedT;
    var info := Load(entry);
    var service := info.address.service;
    var b := TriedBucket(manager.hashing, manager.key, service);
    var p := Position(manager.hashing, manager.key, false, b, service);
    manager.TriedCell(b, p);
    if manager.vvTried[b, p] == -1 {
      info := info.(randomPos := |manager.vRandom|, inTried := true);
      manager.vRandom := manager.vRandom + [manager.idCount];
      manager.mapInfo := manager.mapInfo[manager.idCount := info];
      manager.mapAddr := manager.mapAddr[service.ip := manager.idCount];
      manager.SetTried(b, p, manager.idCount);
      manager.idCount := manager.idCount + 1;
      lost := false;
    } else {
      lost := true;
    }
  }

  method LoadPlace(manager: AddrMan, b: int, index: int, ghost m: Model)
    requires manager.Shape() && Mirrors(manager.State(), m) && Reading(m, manager.nNew) && 0 <= b < NEW_BUCKET_COUNT
    modifies manager`mapInfo, manager.vvNew
    ensures Mirrors(manager.State(), if CanPlace(m, manager.nNew, b, index) then Place(m, b, index) else m)
  {
    hide AddrMan.NewT, AddrMan.TriedT, Framed, NewSlot;
    if 0 <= index < manager.nNew {
      var info := manager.mapInfo[index];
      var p := Position(manager.hashing, manager.key, true, b, info.address.service);
      SlotAt(manager.hashing, manager.key, b, info.address.service);
      manager.NewCell(b, p);
      if manager.vvNew[b, p] == -1 && info.refCount < NEW_BUCKETS_PER_ADDRESS {
        manager.mapInfo := manager.mapInfo[index := info.(refCount := info.refCount + 1)];
        manager.SetNew(b, p, index);
      }
    }
  }

  method LoadRow(manager: AddrMan, b: int, row: seq<int>, ghost m: Model)
    requires manager.Shape() && Mirrors(manager.State(), m) && Reading(m, manager.nNew) && 0 <= b < NEW_BUCKET_COUNT
    modifies manager`mapInfo, manager.vvNew
    ensures Mirrors(manager.State(), ReadRow(m, manager.nNew, b, row))
  {
    hide AddrMan.NewT, AddrMan.TriedT, Reading, CanPlace, Place;
    assert row[..0] == [];
    for n := 0 to |row|
      invariant Mirrors(manager.State(), ReadRow(m, manager.nNew, b, row[..n]))
    {
      ReadRowFramed(m, manager.nNew, b, row[..n]);
      LoadPlace(manager, b, row[n], ReadRow(m, manager.nNew, b, row[..n]));
      assert row[..n + 1][..n] == row[..n];
    }
    assert row[..|row|] == row;
  }

  lemma DroppedOne(m: Model, n: Model, swapped: map<int, Info>, after: Model, gone: set<int>, id: int)
    requires Dropped(m, n, gone) && id in n.infos && id !in gone
    requires SameInfosButPos(swapped, n.infos) && after.infos == swapped - {id} && OrderOk(after.infos, after.order)
    requires after == n.(infos := after.infos, byAddr := n.byAddr - {n.infos[id].address.service.ip}, order := after.order,
                         nNew := n.nNew - 1)
    ensures Dropped(m, after, gone + {id})
  {
    hide OrderOk;
    assert id in n.infos.Keys;
    assert Addresses(m.infos, gone + {id}) == Addresses(m.infos, gone) + {m.infos[id].address.service.ip};
    assert after.infos.Keys == m.infos.Keys - (gone + {id});
    forall k | k in after.infos ensures SameButPos(after.infos[k], m.infos[k]) {
      assert k in n.infos;
      assert SameButPos(swapped[k], n.infos[k]);
    }
  }

  method DropOne(manager: AddrMan, id: int, ghost m: Model, ghost gone: set<int>)
    requires manager.Shape() && Dropped(m, manager.State(), gone) && id in manager.mapInfo && id !in gone
    modifies manager`mapInfo, manager`mapAddr, manager`vRandom, manager`nNew
    ensures Dropped(m, manager.State(), gone + {id})
  {
    hide AddrMan.NewT, AddrMan.TriedT, Addresses, SameButPos;
    ghost var n := manager.State();
    assert OrderOk(n.infos, n.order);
    manager.SwapRandom(manager.mapInfo[id].randomPos, |manager.vRandom| - 1);
    ghost var swapped := manager.mapInfo;
    assert swapped[id].address == n.infos[id].address by { SwappedAddress(swapped, n.infos, id); }
    PopOrder(swapped, manager.vRandom, id);
    manager.vRandom := manager.vRandom[..|manager.vRandom| - 1];
    manager.mapAddr := manager.mapAddr - {manager.mapInfo[id].address.service.ip};
    manager.mapInfo := manager.mapInfo - {id};
    manager.nNew := manager.nNew - 1;
    hide Dropped, OrderOk, SameInfosButPos;
    DroppedOne(m, n, swapped, manager.State(), gone, id);
  }

  lemma SwappedAddress(a: map<int, Info>, b: map<int, Info>, id: int)
    requires SameInfosButPos(a, b) && id in a
    ensures id in b && a[id].address == b[id].address
  {
    assert id in a.Keys;
  }

  /** Drops the entries that ended up without a place. */
  method Prune(manager: AddrMan, ghost m: Model)
    requires manager.Shape() && manager.State() == m && OrderOk(m.infos, m.order)
    modifies manager`mapInfo, manager`mapAddr, manager`vRandom, manager`nNew
    ensures Dropped(m, manager.State(), Unplaced(m.infos))
  {
    hide AddrMan.NewT, AddrMan.TriedT, OrderOk, Dropped, Unplaced;
    var todo := manager.mapInfo.Keys;
    AllToDo(m);
    while |todo| > 0
      invariant todo <= m.infos.Keys && Dropped(m, manager.State(), Unplaced(m.infos) - todo)
    {
      HasLeast(todo);
      var id :| id in todo && forall x :: x in todo ==> id <= x;
      NextToDo(m, manager.State(), todo, id);
      if !manager.mapInfo[id].inTried && manager.mapInfo[id].refCount == 0 {
        DropOne(manager, id, m, Unplaced(m.infos) - todo);
      }
      todo := todo - {id};
    }
    assert todo == {};
    assert Unplaced(m.infos) - todo == Unplaced(m.infos);
  }

  lemma AllToDo(m: Model)
    requires OrderOk(m.infos, m.order)
    ensures Dropped(m, m, Unplaced(m.infos) - m.infos.Keys)
  {
    DroppedNone(m);
    assert Unplaced(m.infos) - m.infos.Keys == {};
  }

  lemma NextToDo(m: Model, n: Model, todo: set<int>, id: int)
    requires todo <= m.infos.Keys && id in todo && Dropped(m, n, Unplaced(m.infos) - todo)
    ensures id in n.infos
    ensures var gone := Unplaced(m.infos) - todo;
      Unplaced(m.infos) - (todo - {id}) == if !n.infos[id].inTried && n.infos[id].refCount == 0 then gone + {id} else gone
  {
    hide OrderOk, Addresses;
    assert id in n.infos.Keys;
    assert SameButPos(n.infos[id], m.infos[id]);
  }

  lemma DroppedNone(m: Model)
    requires OrderOk(m.infos, m.order)
    ensures Dropped(m, m, {})
  {
    assert m.byAddr - Addresses(m.infos, {}) == m.byAddr;
  }

  method LoadNews(manager: AddrMan, entries: seq<Stored>, usable: bool, ghost m: Model)
    requires manager.Shape() && Mirrors(manager.State(), m) && m.idCount == 0 && Reading(m, 0)
    modifies manager`mapInfo, manager`mapAddr, manager`vRandom, manager.vvNew
    ensures Mirrors(manager.State(), ReadNews(m, entries, usable))
  {
    hide AddrMan.NewT, AddrMan.TriedT, Reading, ReadNew;
    assert entries[..0] == [];
    for n := 0 to |entries|
      invariant Mirrors(manager.State(), ReadNews(m, entries[..n], usable))
    {
      ReadNewsFramed(m, entries[..n], usable);
      LoadNew(manager, n, entries[n], usable, ReadNews(m, entries[..n], usable));
      assert entries[..n + 1][..n] == entries[..n];
    }
    assert entries[..|entries|] == entries;
  }

  method LoadTrieds(manager: AddrMan, entries: seq<Stored>, ghost m: Model) returns (lost: nat)
    requires manager.Shape() && Mirrors(manager.State(), m) && m.idCount == manager.idCount >= 0 && m.nTried == 0
    modifies manager`mapInfo, manager`mapAddr, manager`vRandom, manager`idCount, manager.vvTried
    ensures Mirrors(manager.State(), ReadTrieds(m, entries)) && ReadTrieds(m, entries).idCount == manager.idCount
    ensures ReadTrieds(m, entries).nTried == |entries| - lost
  {
    hide AddrMan.NewT, AddrMan.TriedT, ReadTried;
    assert entries[..0] == [];
    lost := 0;
    for n := 0 to |entries|
      invariant Mirrors(manager.State(), ReadTrieds(m, entries[..n]))
      invariant ReadTrieds(m, entries[..n]).idCount == manager.idCount >= 0
      invariant ReadTrieds(m, entries[..n]).nTried == n - lost
    {
      assert entries[..n + 1][..n] == entries[..n];
      var taken := LoadTried(manager, entries[n], ReadTrieds(m, entries[..n]));
      if taken {
        lost := lost + 1;
      }
    }
    assert entries[..|entries|] == entries;
  }

  method LoadRows(manager: AddrMan, rows: seq<seq<int>>, ghost m: Model)
    requires manager.Shape() && Mirrors(manager.State(), m) && Reading(m, manager.nNew) && |rows| <= NEW_BUCKET_COUNT
    modifies manager`mapInfo, manager.vvNew
    ensures Mirrors(manager.State(), ReadRows(m, manager.nNew, rows))
  {
    hide AddrMan.NewT, AddrMan.TriedT, Reading, ReadRow;
    assert rows[..0] == [];
    for b := 0 to |rows|
      invariant Mirrors(manager.State(), ReadRows(m, manager.nNew, rows[..b]))
    {
      ReadRowsFramed(m, manager.nNew, rows[..b]);
      LoadRow(manager, b, rows[b], ReadRows(m, manager.nNew, rows[..b]));
      assert rows[..b + 1][..b] == rows[..b];
    }
    assert rows[..|rows|] == rows;
  }

  lemma BlankReading(hashing: Hashing, key: int)
    ensures Reading(Blank(hashing, key), 0)
  {
    BlankFramed(hashing, key);
  }

  /** The last pass, with everything read. */
  method Finish(manager: AddrMan, image: Image)
    requires manager.Shape() && manager.State() == ReadAll(manager.hashing, image)
    modifies manager`mapInfo, manager`mapAddr, manager`vRandom, manager`nNew
    ensures Dropped(ReadAll(manager.hashing, image), manager.State(), Unplaced(ReadAll(manager.hashing, image).infos))
    ensures Consistent(manager.State(), {}, {}) <==> NoRivals(ReadAll(manager.hashing, image))
    ensures Different(image.unseen + image.tried) ==> Consistent(manager.State(), {}, {})
  {
    hide AddrMan.NewT, AddrMan.TriedT, ReadAll, Dropped, Consistent, NoRivals, Different, OrderOk, Covered;
    ghost var m := manager.State();
    ReadAllFramed(manager.hashing, image);
    Prune(manager, m);
    LoadedImage(manager.hashing, image, manager.State());
  }

  /** Loads a stored manager over whatever the manager held. The attempt fails exactly when the key has the wrong size or there
      are more entries than slots. Otherwise the result is what was read without the entries that found no place, and it is in
      order exactly when no entry that is kept shares its address with another one read; so it is for every image in which
      no address occurs twice, whatever places it names and whatever slots collide. */
  method Unserialize(manager: AddrMan, image: Image, freshKey: int) returns (ok: bool)
    requires manager.Shape()
    modifies manager, manager.vvNew, manager.vvTried
    ensures manager.collisions == old(manager.collisions)
    ensures ok <==>
      && image.keySize == KEY_SIZE
      && |image.unseen| <= NEW_BUCKET_COUNT * BUCKET_SIZE && |image.tried| <= TRIED_BUCKET_COUNT * BUCKET_SIZE
    ensures ok ==> Dropped(ReadAll(manager.hashing, image), manager.State(), Unplaced(ReadAll(manager.hashing, image).infos))
    ensures ok ==> (Consistent(manager.State(), {}, {}) <==> NoRivals(ReadAll(manager.hashing, image)))
    ensures ok && Different(image.unseen + image.tried) ==> Consistent(manager.State(), {}, {})
  {
    hide Different;
    hide AddrMan.NewT, AddrMan.TriedT, Reading, ReadNews, ReadTrieds, ReadRows, Consistent, Dropped, NoRivals;
    manager.Clear(freshKey);
    if image.keySize != KEY_SIZE {
      return false;
    }
    manager.key := image.key;
    manager.nNew := |image.unseen|;
    manager.nTried := |image.tried|;
    if manager.nNew > NEW_BUCKET_COUNT * BUCKET_SIZE {
      return false;
    }
    if manager.nTried > TRIED_BUCKET_COUNT * BUCKET_SIZE {
      return false;
    }
    ghost var m := Blank(manager.hashing, image.key);
    BlankReading(manager.hashing, image.key);
    LoadNews(manager, image.unseen, Usable(image), m);
    ReadNewsFramed(m, image.unseen, Usable(image));
    m := ReadNews(m, image.unseen, Usable(image));
    manager.idCount := manager.nNew;
    var lost := LoadTrieds(manager, image.tried, m);
    ReadTriedsFramed(m, manager.nNew, image.tried);
    m := ReadTrieds(m, image.tried);
    manager.nTried := manager.nTried - lost;
    if Usable(image) {
      LoadRows(manager, image.buckets, m);
      ReadRowsFramed(m, manager.nNew, image.buckets);
      m := ReadRows(m, manager.nNew, image.buckets);
    }
    Finish(manager, image);
    ok := true;
  }

  /** An address stored twice, and never mind where: the first copy is kept, and it has a rival. */
  lemma ReadTwice(hashing: Hashing, key: int, entry: Stored)
    ensures !NoRivals(ReadAll(hashing, Image(0, KEY_SIZE, key, [entry, entry], [], [])))
  {
    var image := Image(0, KEY_SIZE, key, [entry, entry], [], []);
    var one := ReadNew(Blank(hashing, key), entry, false);
    var two := ReadNew(one, entry, false);
    hide NewSlot, HomeSlot, NewBucket;
    HomeIsNew(hashing, key, Load(entry));
    assert [entry, entry][..1] == [entry] && [entry][..0] == [];
    assert ReadNews(Blank(hashing, key), [entry], false) == one;
    assert ReadNews(Blank(hashing, key), [entry, entry], false) == two;
    assert ReadAll(hashing, image) == two;
    assert one.infos[0].refCount == 1 && two.infos[0] == one.infos[0] && two.infos[1].address == one.infos[0].address;
    assert 0 !in Unplaced(two.infos);
  }

  /** Loading an image with one entry stored twice succeeds and leaves a manager that is not in order. */
  method StoredTwice(manager: AddrMan, key: int, entry: Stored, freshKey: int) returns (ok: bool)
    requires manager.Shape()
    modifies manager, manager.vvNew, manager.vvTried
    ensures ok && !Consistent(manager.State(), {}, {}) && !manager.Valid()
  {
    hide Consistent, NoRivals, ReadAll, Dropped, Different, CollisionsOk, AddrMan.NewT, AddrMan.TriedT;
    ReadTwice(manager.hashing, key, entry);
    ok := Unserialize(manager, Image(0, KEY_SIZE, key, [entry, entry], [], []), freshKey);
  }

  // ----- saving -----

  /** Untried entries are recognized by their references. */
  predicate Written(info: Info, tried: bool) {
    if tried then info.inTried else info.refCount != 0
  }

  ghost function WrittenIds(infos: map<int, Info>, tried: bool): set<int> {
    set id | id in infos && Written(infos[id], tried)
  }

  lemma WrittenAre(m: Model)
    requires Consistent(m, {}, {})
    ensures WrittenIds(m.infos, false) == NewIds(m.infos) && WrittenIds(m.infos, true) == TriedIds(m.infos)
    ensures |WrittenIds(m.infos, false)| == m.nNew && |WrittenIds(m.infos, true)| == m.nTried
  {
    hide IdsOk, AddrOk, OrderOk;
    forall id | id in m.infos
      ensures Written(m.infos[id], false) <==> !m.infos[id].inTried
      ensures Written(m.infos[id], true) <==> m.infos[id].inTried
    {
      if m.infos[id].inTried {
        TriedHasNoRefs(m, id, {}, {});
      }
    }
    assert NewIds(m.infos) - {} == NewIds(m.infos);
    assert WrittenIds(m.infos, false) == NewIds(m.infos) && WrittenIds(m.infos, true) == TriedIds(m.infos);
  }

  /** `ids` lists a set in ascending order. */
  ghost predicate Lists(ids: seq<int>, s: set<int>) {
    && (forall i, j :: 0 <= i < j < |ids| ==> ids[i] < ids[j])
    && (forall id :: id in ids <==> id in s)
    && |ids| == |s|
  }

  lemma ListedAt(ids: seq<int>, s: set<int>, id: int) returns (i: nat)
    requires Lists(ids, s) && id in s
    ensures i < |ids| && ids[i] == id
  {
    assert id in ids;
    i :| 0 <= i < |ids| && ids[i] == id;
  }

  lemma ListsMore(ids: seq<int>, s: set<int>, id: int)
    requires Lists(ids, s) && forall k :: k in s ==> k < id
    ensures Lists(ids + [id], s + {id}) && id !in ids
  {
    assert id !in s;
    forall i | 0 <= i < |ids| ensures ids[i] < id {
      assert ids[i] in ids;
    }
    forall k ensures k in ids + [id] <==> k in s + {id} {
      assert k in ids <==> k in s;
    }
  }

  /** `entries` are the stored entries of `ids`, and `index` their places. */
  ghost predicate Collected(infos: map<int, Info>, ids: seq<int>, entries: seq<Stored>, index: map<int, int>) {
    && |entries| == |ids|
    && (forall i :: 0 <= i < |ids| ==> ids[i] in infos && entries[i] == Store(infos[ids[i]]))
    && (forall i :: 0 <= i < |ids| ==> ids[i] in index && index[ids[i]] == i)
  }

  /** Writes out the untried entries or the tried ones, in the order of their ids. The source asserts before each that the
      counter is not reached yet. */
  method Collect(manager: AddrMan, tried: bool) returns (entries: seq<Stored>, index: map<int, int>, ghost ids: seq<int>)
    requires manager.Shape() && Consistent(manager.State(), {}, {})
    ensures Lists(ids, WrittenIds(manager.mapInfo, tried)) && Collected(manager.mapInfo, ids, entries, index)
    ensures |entries| == if tried then manager.nTried else manager.nNew
  {
    hide Consistent, AddrMan.NewT, AddrMan.TriedT, Collecting, Lists, Collected, WrittenIds, Written;
    WrittenAre(manager.State());
    entries, index, ids := [], map[], [];
    var todo := manager.mapInfo.Keys;
    CollectStart(manager.mapInfo, tried);
    while |todo| > 0
      invariant todo <= manager.mapInfo.Keys && Collecting(manager.mapInfo, tried, todo, ids, entries, index)
    {
      HasLeast(todo);
      var id :| id in todo && forall x :: x in todo ==> id <= x;
      assert id in manager.mapInfo.Keys;
      var info := manager.mapInfo[id];
      CollectNext(manager.mapInfo, tried, todo, ids, entries, index, id);
      index := index[id := |entries|];
      if Written(info, tried) {
        assert |entries| != if tried then manager.nTried else manager.nNew;
        entries := entries + [Store(info)];
        ids := ids + [id];
      }
      todo := todo - {id};
    }
    CollectEnd(manager.mapInfo, tried, ids, entries, index);
  }

  /** The entries not in `todo` have been collected, and those in `todo` come later. */
  ghost predicate Collecting(infos: map<int, Info>, tried: bool, todo: set<int>, ids: seq<int>, entries: seq<Stored>,
                             index: map<int, int>)
  {
    && Lists(ids, WrittenIds(infos, tried) - todo) && Collected(infos, ids, entries, index)
    && (forall k, x :: k in infos && k !in todo && x in todo ==> k < x)
  }

  lemma CollectStart(infos: map<int, Info>, tried: bool)
    ensures Collecting(infos, tried, infos.Keys, [], [], map[])
  {
    assert WrittenIds(infos, tried) - infos.Keys == {};
  }

  lemma CollectNext(infos: map<int, Info>, tried: bool, todo: set<int>, ids: seq<int>, entries: seq<Stored>,
                    index: map<int, int>, id: int)
    requires Collecting(infos, tried, todo, ids, entries, index) && todo <= infos.Keys
    requires id in todo && forall x :: x in todo ==> id <= x
    ensures id in infos
    ensures Written(infos[id], tried) ==>
      && |entries| < |WrittenIds(infos, tried)|
      && Collecting(infos, tried, todo - {id}, ids + [id], entries + [Store(infos[id])], index[id := |entries|])
    ensures !Written(infos[id], tried) ==> Collecting(infos, tried, todo - {id}, ids, entries, index[id := |entries|])
  {
    assert id in infos.Keys;
    var (all, done) := (WrittenIds(infos, tried), WrittenIds(infos, tried) - todo);
    assert forall k :: k in done ==> k < id;
    assert id in all <==> Written(infos[id], tried);
    ListsMore(ids, done, id);
    hide Lists, Collected, WrittenIds;
    if Written(infos[id], tried) {
      OneMore(all, done, id);
      CollectedMore(infos, ids, entries, index, id);
      assert all - (todo - {id}) == done + {id};
      assert |entries| == |done| by { CollectedSize(infos, ids, entries, index, done); }
    } else {
      CollectedIndex(infos, ids, entries, index, id);
      assert all - (todo - {id}) == done;
    }
  }

  lemma CollectedSize(infos: map<int, Info>, ids: seq<int>, entries: seq<Stored>, index: map<int, int>, s: set<int>)
    requires Collected(infos, ids, entries, index) && Lists(ids, s)
    ensures |entries| == |s|
  {
  }

  lemma CollectEnd(infos: map<int, Info>, tried: bool, ids: seq<int>, entries: seq<Stored>, index: map<int, int>)
    requires Collecting(infos, tried, {}, ids, entries, index)
    ensures Lists(ids, WrittenIds(infos, tried)) && Collected(infos, ids, entries, index)
    ensures |entries| == |WrittenIds(infos, tried)|
  {
    assert WrittenIds(infos, tried) - {} == WrittenIds(infos, tried);
  }

  lemma OneMore(all: set<int>, done: set<int>, id: int)
    requires done <= all && id in all && id !in done
    ensures |done| < |all|
  {
    Fewer(done + {id}, all);
  }

  lemma Fewer<T>(a: set<T>, b: set<T>)
    requires a <= b
    ensures |a| <= |b|
  {
    assert b == a + (b - a);
  }

  lemma CollectedMore(infos: map<int, Info>, ids: seq<int>, entries: seq<Stored>, index: map<int, int>, id: int)
    requires Collected(infos, ids, entries, index) && id in infos && id !in ids
    ensures Collected(infos, ids + [id], entries + [Store(infos[id])], index[id := |entries|])
  {
  }

  lemma CollectedIndex(infos: map<int, Info>, ids: seq<int>, entries: seq<Stored>, index: map<int, int>, id: int)
    requires Collected(infos, ids, entries, index) && id !in ids
    ensures Collected(infos, ids, entries, index[id := |entries|])
  {
  }

  /** The indexes of the entries in the first `p` slots of new bucket `b`; a missing index reads as zero. */
  function RowOf(t: Table, index: map<int, int>, b: int, p: nat): seq<int> {
    if p == 0 then []
    else if (b, p - 1) in t then RowOf(t, index, b, p - 1) + [IndexOf(index, t[(b, p - 1)])]
    else RowOf(t, index, b, p - 1)
  }

  function IndexOf(index: map<int, int>, id: int): int {
    if id in index then index[id] else 0
  }

  method WriteRow(manager: AddrMan, index: map<int, int>, b: int) returns (row: seq<int>)
    requires manager.Shape() && 0 <= b < NEW_BUCKET_COUNT
    ensures row == RowOf(manager.NewT(), index, b, BUCKET_SIZE)
  {
    hide AddrMan.NewT;
    row := [];
    for p := 0 to BUCKET_SIZE
      invariant row == RowOf(manager.NewT(), index, b, p)
    {
      manager.NewCell(b, p);
      if manager.vvNew[b, p] != -1 {
        row := row + [IndexOf(index, manager.vvNew[b, p])];
      }
    }
  }

  /** `image` stores `m`: the untried entries `ids`, the tried ones and the places of the former in the new table. */
  ghost predicate Stores(m: Model, image: Image, ids: seq<int>, triedIds: seq<int>, index: map<int, int>) {
    && image.version == 1 && image.keySize == KEY_SIZE && image.key == m.key
    && Lists(ids, NewIds(m.infos)) && Collected(m.infos, ids, image.unseen, index)
    && Lists(triedIds, TriedIds(m.infos)) && |image.tried| == |triedIds|
    && (forall i :: 0 <= i < |triedIds| ==> triedIds[i] in m.infos && image.tried[i] == Store(m.infos[triedIds[i]]))
    && |image.buckets| == NEW_BUCKET_COUNT
    && (forall b :: 0 <= b < NEW_BUCKET_COUNT ==> image.buckets[b] == RowOf(m.newT, index, b, BUCKET_SIZE))
  }

  method Serialize(manager: AddrMan)
      returns (image: Image, ghost ids: seq<int>, ghost triedIds: seq<int>, ghost index: map<int, int>)
    requires manager.Shape() && Consistent(manager.State(), {}, {})
    ensures Stores(manager.State(), image, ids, triedIds, index)
  {
    hide Consistent, AddrMan.NewT, AddrMan.TriedT, Lists, RowOf, WrittenIds;
    WrittenAre(manager.State());
    var unseen, places;
    unseen, places, ids := Collect(manager, false);
    var tried, unused;
    tried, unused, triedIds := Collect(manager, true);
    var rows := [];
    for b := 0 to NEW_BUCKET_COUNT
      invariant |rows| == b && forall c :: 0 <= c < b ==> rows[c] == RowOf(manager.NewT(), places, c, BUCKET_SIZE)
    {
      var row := WriteRow(manager, places, b);
      rows := rows + [row];
    }
    index := places;
    image := Image(1, KEY_SIZE, manager.key, unseen, tried, rows);
  }

  // ----- saving and loading -----

  /** The untried entries come back as the first ones. */
  ghost predicate NewsDone(h: Hashing, key: int, r: Model, entries: seq<Stored>) {
    && r.hashing == h && r.key == key && r.idCount == |entries| && r.newT == map[] && r.triedT == map[]
    && r.nNew == |entries| && r.nTried == 0
    && (forall i :: 0 <= i < |entries| ==> i in r.infos && SameButPos(r.infos[i], Load(entries[i])))
  }

  lemma {:induction false} NewsRead(h: Hashing, key: int, entries: seq<Stored>)
    ensures NewsDone(h, key, ReadNews(Blank(h, key), entries, true), entries)
    decreases |entries|
  {
    if entries != [] {
      var fewer := entries[..|entries| - 1];
      NewsRead(h, key, fewer);
      var m := ReadNews(Blank(h, key), fewer, true);
      var r := ReadNew(m, entries[|entries| - 1], true);
      forall i | 0 <= i < |entries| ensures i in r.infos && SameButPos(r.infos[i], Load(entries[i])) {
        if i < |fewer| {
          assert fewer[i] == entries[i];
        }
      }
    }
  }

  function SlotOf(m: Model, entry: Stored): Slot {
    TriedSlot(m.hashing, m.key, entry.address.service)
  }

  /** The tried entries follow the others. */
  ghost predicate Entered(m: Model, infos: map<int, Info>, entries: seq<Stored>) {
    && (forall i :: 0 <= i < m.idCount ==> i in m.infos && i in infos && infos[i] == m.infos[i])
    && (forall id :: m.idCount <= id < m.idCount + |entries| ==>
          id in infos && SameButPos(infos[id], Load(entries[id - m.idCount]).(inTried := true)))
  }

  /** Each is in its slot. */
  ghost predicate Placed(m: Model, t: Table, entries: seq<Stored>) {
    && (forall j :: 0 <= j < |entries| ==> SlotOf(m, entries[j]) in t && t[SlotOf(m, entries[j])] == m.idCount + j)
    && (forall s :: s in t ==> exists j :: 0 <= j < |entries| && s == SlotOf(m, entries[j]))
  }

  ghost predicate TriedsDone(m: Model, r: Model, entries: seq<Stored>) {
    && r.hashing == m.hashing && r.key == m.key && r.idCount == m.idCount + |entries| && r.newT == m.newT
    && r.nNew == m.nNew && r.nTried == m.nTried + |entries|
    && Entered(m, r.infos, entries) && Placed(m, r.triedT, entries)
  }

  ghost predicate Distinct(m: Model, entries: seq<Stored>) {
    forall i, j :: 0 <= i < j < |entries| ==> SlotOf(m, entries[i]) != SlotOf(m, entries[j])
  }

  lemma {:induction false} TriedsRead(m: Model, entries: seq<Stored>)
    requires m.triedT == map[] && m.idCount >= 0 && forall i :: 0 <= i < m.idCount ==> i in m.infos
    requires Distinct(m, entries)
    ensures TriedsDone(m, ReadTrieds(m, entries), entries)
    decreases |entries|
  {
    hide Entered, Placed, Distinct, TriedSlot, ReadTrieds;
    if entries == [] {
      NoneRead(m);
    } else {
      var n := |entries| - 1;
      FewerDistinct(m, entries, n);
      TriedsRead(m, entries[..n]);
      var q := ReadTrieds(m, entries[..n]);
      EnteredNext(m, q.infos, entries, n, |q.order|);
      PlacedNext(m, q.triedT, entries, n);
      assert SlotOf(q, entries[n]) == SlotOf(m, entries[n]);
      LastRead(m, entries, n);
    }
  }

  lemma NoneRead(m: Model)
    requires m.triedT == map[] && m.idCount >= 0 && forall i :: 0 <= i < m.idCount ==> i in m.infos
    ensures ReadTrieds(m, []) == m && Entered(m, m.infos, []) && Placed(m, m.triedT, [])
  {
  }

  lemma FewerDistinct(m: Model, entries: seq<Stored>, n: nat)
    requires Distinct(m, entries) && n <= |entries|
    ensures Distinct(m, entries[..n])
  {
  }

  lemma LastRead(m: Model, entries: seq<Stored>, n: nat)
    requires |entries| == n + 1
    ensures ReadTrieds(m, entries) == ReadTried(ReadTrieds(m, entries[..n]), entries[n])
  {
  }

  lemma EnteredNext(m: Model, infos: map<int, Info>, entries: seq<Stored>, n: nat, pos: int)
    requires |entries| == n + 1 && Entered(m, infos, entries[..n]) && m.idCount >= 0
    ensures Entered(m, infos[m.idCount + n := Load(entries[n]).(inTried := true, randomPos := pos)], entries)
  {
    var after := infos[m.idCount + n := Load(entries[n]).(inTried := true, randomPos := pos)];
    forall id | m.idCount <= id < m.idCount + |entries|
      ensures id in after && SameButPos(after[id], Load(entries[id - m.idCount]).(inTried := true))
    {
      if id < m.idCount + n {
        assert id in infos && entries[..n][id - m.idCount] == entries[id - m.idCount];
      }
    }
  }

  lemma PlacedNext(m: Model, t: Table, entries: seq<Stored>, n: nat)
    requires |entries| == n + 1 && Placed(m, t, entries[..n]) && Distinct(m, entries)
    ensures SlotOf(m, entries[n]) !in t && Placed(m, t[SlotOf(m, entries[n]) := m.idCount + n], entries)
  {
    hide SlotOf;
    var after := t[SlotOf(m, entries[n]) := m.idCount + n];
    forall j | 0 <= j < |entries|
      ensures SlotOf(m, entries[j]) in after && after[SlotOf(m, entries[j])] == m.idCount + j
    {
      if j < n {
        assert entries[..n][j] == entries[j];
      }
    }
    forall s | s in after ensures exists j :: 0 <= j < |entries| && s == SlotOf(m, entries[j]) {
      if s in t {
        var j :| 0 <= j < n && s == SlotOf(m, entries[..n][j]);
        assert s == SlotOf(m, entries[j]);
      } else {
        assert s == SlotOf(m, entries[n]);
      }
    }
  }

  // ----- the places in the new table come back -----

  /** Slot `s` comes before slot `p` of bucket `b`. */
  predicate Before(s: Slot, b: int, p: int) {
    s.0 < b || (s.0 == b && s.1 < p)
  }

  /** The places before that slot, by index. */
  ghost function Upto(t: Table, index: map<int, int>, b: int, p: int): Table {
    map s | s in t && Before(s, b, p) :: IndexOf(index, t[s])
  }

  /** Every entry with a place in the new table has an index, and no two have the same. */
  ghost predicate Indexed(m: Model, ids: seq<int>, index: map<int, int>) {
    forall s :: s in m.newT ==>
      0 <= IndexOf(index, m.newT[s]) < |ids| && ids[IndexOf(index, m.newT[s])] == m.newT[s]
  }

  /** `cur` is `base` with the places before slot `p` of bucket `b` filled. */
  ghost predicate Filling(m: Model, base: Model, cur: Model, index: map<int, int>, b: int, p: int) {
    && cur == base.(infos := cur.infos, newT := Upto(m.newT, index, b, p))
    && cur.infos.Keys == base.infos.Keys
    && (forall id :: id in base.infos ==> cur.infos[id] == base.infos[id].(refCount := cur.infos[id].refCount))
  }

  /** The entries of `base` that have places in the new table are those of `m`. */
  ghost predicate Matches(m: Model, base: Model, ids: seq<int>) {
    && base.hashing == m.hashing && base.key == m.key
    && (forall i :: 0 <= i < |ids| ==>
          ids[i] in m.infos && i in base.infos && base.infos[i].address.service == m.infos[ids[i]].address.service)
  }

  lemma RoomLeft(m: Model, cur: Model, ids: seq<int>, index: map<int, int>, b: int, p: int)
    requires Consistent(m, {}, {}) && Framed(cur) && Indexed(m, ids, index)
    requires cur.newT == Upto(m.newT, index, b, p) && (b, p) in m.newT
    requires IndexOf(index, m.newT[(b, p)]) in cur.infos
    ensures cur.infos[IndexOf(index, m.newT[(b, p)])].refCount < NEW_BUCKETS_PER_ADDRESS
  {
    hide IdsOk, AddrOk, OrderOk, CountsOk, TriedOk;
    var id := m.newT[(b, p)];
    var i := IndexOf(index, id);
    assert id in m.infos;
    forall s | s in SlotsOf(cur.newT, i) ensures s in SlotsOf(m.newT, id) && s != (b, p) {
      assert IndexOf(index, m.newT[s]) == i;
    }
    assert (b, p) in SlotsOf(m.newT, id);
    Fewer(SlotsOf(cur.newT, i) + {(b, p)}, SlotsOf(m.newT, id));
  }

  lemma FillOne(m: Model, base: Model, cur: Model, ids: seq<int>, index: map<int, int>, b: int, p: int)
    requires Consistent(m, {}, {}) && Indexed(m, ids, index) && Matches(m, base, ids)
    requires Filling(m, base, cur, index, b, p) && Framed(cur) && (b, p) in m.newT
    ensures var i := IndexOf(index, m.newT[(b, p)]);
      CanPlace(cur, |ids|, b, i) && Filling(m, base, Place(cur, b, i), index, b, p + 1)
  {
    hide Consistent, Framed, NewSlot, IndexOf;
    var i := IndexOf(index, m.newT[(b, p)]);
    OwnSlot(m, b, p);
    assert i in cur.infos.Keys;
    assert i in base.infos && cur.infos[i].address == base.infos[i].address;
    RoomLeft(m, cur, ids, index, b, p);
    FillPlaced(m, base, cur, index, b, p, i);
  }

  lemma FillPlaced(m: Model, base: Model, cur: Model, index: map<int, int>, b: int, p: int, i: int)
    requires Filling(m, base, cur, index, b, p) && (b, p) in m.newT && i == IndexOf(index, m.newT[(b, p)]) && i in cur.infos
    requires NewSlot(cur.hashing, cur.key, b, cur.infos[i].address.service) == (b, p)
    ensures (b, p) !in cur.newT && Filling(m, base, Place(cur, b, i), index, b, p + 1)
  {
    hide NewSlot, IndexOf;
    assert i in cur.infos.Keys;
    assert Upto(m.newT, index, b, p + 1) == Upto(m.newT, index, b, p)[(b, p) := i];
    assert Place(cur, b, i).infos.Keys == base.infos.Keys;
  }

  lemma OwnSlot(m: Model, b: int, p: int)
    requires Consistent(m, {}, {}) && (b, p) in m.newT
    ensures m.newT[(b, p)] in m.infos && 0 <= b < NEW_BUCKET_COUNT && 0 <= p < BUCKET_SIZE
    ensures (b, p) == NewSlot(m.hashing, m.key, b, m.infos[m.newT[(b, p)]].address.service)
  {
    hide IdsOk, AddrOk, OrderOk, CountsOk, RefsOk, TriedOk;
  }

  lemma ReadOneMore(m: Model, n: int, b: int, row: seq<int>, x: int)
    ensures var before := ReadRow(m, n, b, row);
      ReadRow(m, n, b, row + [x]) == if CanPlace(before, n, b, x) then Place(before, b, x) else before
  {
    assert (row + [x])[..|row + [x]| - 1] == row;
  }

  lemma SkipSlot(m: Model, base: Model, cur: Model, index: map<int, int>, b: int, p: int)
    requires Filling(m, base, cur, index, b, p) && (b, p) !in m.newT
    ensures Filling(m, base, cur, index, b, p + 1)
  {
    assert Upto(m.newT, index, b, p + 1) == Upto(m.newT, index, b, p);
  }

  lemma {:induction false} RowFilled(m: Model, base: Model, start: Model, ids: seq<int>, index: map<int, int>, b: int, p: nat)
    requires Consistent(m, {}, {}) && Indexed(m, ids, index) && Matches(m, base, ids) && 0 <= b < NEW_BUCKET_COUNT
    requires Filling(m, base, start, index, b, 0) && Reading(start, |ids|)
    ensures Filling(m, base, ReadRow(start, |ids|, b, RowOf(m.newT, index, b, p)), index, b, p)
    decreases p
  {
    hide Consistent, Indexed, Matches, Filling, Framed, CanPlace, Place, ReadRow;
    if p == 0 {
      NothingRead(start, |ids|, b);
    } else {
      RowFilled(m, base, start, ids, index, b, p - 1);
      var row := RowOf(m.newT, index, b, p - 1);
      var cur := ReadRow(start, |ids|, b, row);
      if (b, p - 1) in m.newT {
        ReadRowFramed(start, |ids|, b, row);
        FillOne(m, base, cur, ids, index, b, p - 1);
        ReadOneMore(start, |ids|, b, row, IndexOf(index, m.newT[(b, p - 1)]));
      } else {
        SkipSlot(m, base, cur, index, b, p - 1);
      }
    }
  }

  lemma NothingRead(m: Model, n: int, b: int)
    ensures ReadRow(m, n, b, []) == m
  {
  }

  /** After the last slot of a bucket comes the first of the next. */
  lemma NextBucket(m: Model, base: Model, cur: Model, index: map<int, int>, b: int)
    requires Consistent(m, {}, {}) && Filling(m, base, cur, index, b, BUCKET_SIZE)
    ensures Filling(m, base, cur, index, b + 1, 0)
  {
    hide Consistent;
    forall s | s in m.newT ensures 0 <= s.1 < BUCKET_SIZE {
      OwnSlot(m, s.0, s.1);
    }
    assert Upto(m.newT, index, b + 1, 0) == Upto(m.newT, index, b, BUCKET_SIZE);
  }

  lemma {:induction false} RowsFilled(m: Model, base: Model, ids: seq<int>, index: map<int, int>, rows: seq<seq<int>>)
    requires Consistent(m, {}, {}) && Indexed(m, ids, index) && Matches(m, base, ids)
    requires base.newT == map[] && Reading(base, |ids|) && |rows| <= NEW_BUCKET_COUNT
    requires forall b :: 0 <= b < |rows| ==> rows[b] == RowOf(m.newT, index, b, BUCKET_SIZE)
    ensures Filling(m, base, ReadRows(base, |ids|, rows), index, |rows|, 0)
    decreases |rows|
  {
    hide Consistent, Indexed, Matches, Filling, Reading, RowOf, ReadRow;
    if rows == [] {
      NothingFilled(m, base, index);
    } else {
      var b := |rows| - 1;
      RowsFilled(m, base, ids, index, rows[..b]);
      var start := ReadRows(base, |ids|, rows[..b]);
      ReadRowsFramed(base, |ids|, rows[..b]);
      RowFilled(m, base, start, ids, index, b, BUCKET_SIZE);
      NextBucket(m, base, ReadRow(start, |ids|, b, rows[b]), index, b);
    }
  }

  lemma NothingFilled(m: Model, base: Model, index: map<int, int>)
    requires Consistent(m, {}, {}) && base.newT == map[]
    ensures Filling(m, base, base, index, 0, 0)
  {
    hide Consistent;
    forall s | s in m.newT ensures 0 <= s.0 && 0 <= s.1 {
      OwnSlot(m, s.0, s.1);
    }
    assert Upto(m.newT, index, 0, 0) == map[];
  }

  // ----- the round trip -----

  /** The id an entry had before. */
  function Origin(ids: seq<int>, triedIds: seq<int>, i: nat): int
    requires i < |ids| + |triedIds|
  {
    if i < |ids| then ids[i] else triedIds[i - |ids|]
  }

  /** What is stored of two entries, and their roles, agree. */
  predicate SameSaved(a: Info, b: Info) {
    Store(a) == Store(b) && a.refCount == b.refCount && a.inTried == b.inTried
  }

  /** The tables have the same slots filled, by entries of the same origin. */
  ghost predicate SameSlots(t: Table, was: Table, ids: seq<int>, triedIds: seq<int>) {
    && t.Keys == was.Keys
    && (forall s :: s in t ==> 0 <= t[s] < |ids| + |triedIds| && s in was && Origin(ids, triedIds, t[s]) == was[s])
  }

  ghost predicate SameEntries(infos: map<int, Info>, was: map<int, Info>, ids: seq<int>, triedIds: seq<int>) {
    && (forall i :: i in infos <==> 0 <= i < |ids| + |triedIds|)
    && (forall i :: 0 <= i < |ids| + |triedIds| ==>
          i in infos && Origin(ids, triedIds, i) in was && SameSaved(infos[i], was[Origin(ids, triedIds, i)]))
  }

  /** `n` is `m` with its entries renumbered. */
  ghost predicate Renumbered(m: Model, n: Model, ids: seq<int>, triedIds: seq<int>) {
    && n.hashing == m.hashing && n.key == m.key && n.nNew == m.nNew && n.nTried == m.nTried
    && SameEntries(n.infos, m.infos, ids, triedIds)
    && SameSlots(n.newT, m.newT, ids, triedIds) && SameSlots(n.triedT, m.triedT, ids, triedIds)
  }

  lemma StoredIndex(m: Model, image: Image, ids: seq<int>, triedIds: seq<int>, index: map<int, int>)
    requires Consistent(m, {}, {}) && Stores(m, image, ids, triedIds, index)
    ensures Indexed(m, ids, index)
  {
    hide IdsOk, AddrOk, OrderOk, CountsOk, RefsOk, TriedOk, RowOf;
    forall s | s in m.newT
      ensures 0 <= IndexOf(index, m.newT[s]) < |ids| && ids[IndexOf(index, m.newT[s])] == m.newT[s]
    {
      assert m.newT[s] in NewIds(m.infos);
      var i := ListedAt(ids, NewIds(m.infos), m.newT[s]);
    }
  }

  lemma StoredSlots(m: Model, image: Image, ids: seq<int>, triedIds: seq<int>, index: map<int, int>)
    requires Consistent(m, {}, {}) && Stores(m, image, ids, triedIds, index)
    ensures Distinct(m, image.tried)
    ensures var slots := SlotsFor(m, image.tried);
      && |slots| == |triedIds|
      && (forall j :: 0 <= j < |slots| ==> slots[j] in m.triedT && m.triedT[slots[j]] == triedIds[j])
      && (forall s :: s in m.triedT ==> s in slots)
  {
    hide IdsOk, AddrOk, OrderOk, CountsOk, RefsOk, NewSlotsOk, RowOf, TriedSlot;
    var slots := SlotsFor(m, image.tried);
    forall j | 0 <= j < |triedIds| ensures slots[j] in m.triedT && m.triedT[slots[j]] == triedIds[j] {
      assert triedIds[j] in triedIds;
      assert triedIds[j] in TriedIds(m.infos);
    }
    forall s | s in m.triedT ensures s in slots {
      assert m.triedT[s] in TriedIds(m.infos);
      var j := ListedAt(triedIds, TriedIds(m.infos), m.triedT[s]);
      assert s == slots[j];
    }
    forall i, j | 0 <= i < j < |image.tried| ensures SlotOf(m, image.tried[i]) != SlotOf(m, image.tried[j]) {
      assert slots[i] == SlotOf(m, image.tried[i]) && slots[j] == SlotOf(m, image.tried[j]);
    }
  }

  lemma NewBack(m: Model, t: Table, ids: seq<int>, triedIds: seq<int>, index: map<int, int>)
    requires Consistent(m, {}, {}) && Indexed(m, ids, index) && t == Upto(m.newT, index, NEW_BUCKET_COUNT, 0)
    ensures SameSlots(t, m.newT, ids, triedIds)
  {
    hide Consistent, IndexOf;
    forall s | s in m.newT ensures s in t {
      OwnSlot(m, s.0, s.1);
    }
    assert t.Keys == m.newT.Keys;
  }

  lemma SlotsBack(t: Table, was: Table, slots: seq<Slot>, ids: seq<int>, triedIds: seq<int>)
    requires |slots| == |triedIds|
    requires forall j :: 0 <= j < |slots| ==> slots[j] in t && t[slots[j]] == |ids| + j
    requires forall j :: 0 <= j < |slots| ==> slots[j] in was && was[slots[j]] == triedIds[j]
    requires forall s :: s in t ==> s in slots
    requires forall s :: s in was ==> s in slots
    ensures SameSlots(t, was, ids, triedIds)
  {
    forall s | s in t
      ensures s in was && 0 <= t[s] < |ids| + |triedIds| && Origin(ids, triedIds, t[s]) == was[s]
    {
      var j :| 0 <= j < |slots| && s == slots[j];
    }
    forall s ensures s in t <==> s in was {
    }
    assert t.Keys == was.Keys;
  }

  /** The slots of the stored entries. */
  function SlotsFor(m: Model, entries: seq<Stored>): seq<Slot> {
    seq(|entries|, j requires 0 <= j < |entries| => SlotOf(m, entries[j]))
  }

  lemma PlacedSlots(q: Model, t: Table, entries: seq<Stored>)
    requires Placed(q, t, entries)
    ensures var slots := SlotsFor(q, entries);
      && (forall j :: 0 <= j < |slots| ==> slots[j] in t && t[slots[j]] == q.idCount + j)
      && (forall s :: s in t ==> s in slots)
  {
    hide SlotOf;
    var slots := SlotsFor(q, entries);
    forall s | s in t ensures s in slots {
      var j :| 0 <= j < |entries| && s == SlotOf(q, entries[j]);
      assert s == slots[j];
    }
  }

  lemma TriedBack(m: Model, q: Model, t: Table, image: Image, ids: seq<int>, triedIds: seq<int>, index: map<int, int>)
    requires Consistent(m, {}, {}) && Stores(m, image, ids, triedIds, index)
    requires q.hashing == m.hashing && q.key == m.key && q.idCount == |ids| && Placed(q, t, image.tried)
    ensures SameSlots(t, m.triedT, ids, triedIds)
  {
    hide Consistent, Lists, Collected, RowOf, TriedSlot, NewIds, TriedIds, Placed;
    StoredSlots(m, image, ids, triedIds, index);
    PlacedSlots(q, t, image.tried);
    var slots := SlotsFor(m, image.tried);
    assert SlotsFor(q, image.tried) == slots;
    hide SlotOf, SlotsFor, Stores;
    SlotsBack(t, m.triedT, slots, ids, triedIds);
  }

  /** With the slots back, so are the reference counts. */
  lemma RefsBack(m: Model, r: Model, ids: seq<int>, triedIds: seq<int>, i: nat)
    requires Consistent(m, {}, {}) && Framed(r) && SameSlots(r.newT, m.newT, ids, triedIds)
    requires i < |ids| + |triedIds| && i in r.infos && Origin(ids, triedIds, i) in m.infos
    requires forall k: nat, l: nat :: k < l < |ids| + |triedIds| ==> Origin(ids, triedIds, k) != Origin(ids, triedIds, l)
    ensures r.infos[i].refCount == m.infos[Origin(ids, triedIds, i)].refCount
  {
    hide IdsOk, AddrOk, OrderOk, CountsOk, TriedOk, NewSlotsOk, Origin;
    assert SlotsOf(r.newT, i) == SlotsOf(m.newT, Origin(ids, triedIds, i));
  }

  /** No two entries have the same origin. */
  lemma Origins(m: Model, ids: seq<int>, triedIds: seq<int>)
    requires Lists(ids, NewIds(m.infos)) && Lists(triedIds, TriedIds(m.infos))
    ensures forall i: nat :: i < |ids| + |triedIds| ==> Origin(ids, triedIds, i) in m.infos
    ensures forall i: nat, k: nat :: i < k < |ids| + |triedIds| ==> Origin(ids, triedIds, i) != Origin(ids, triedIds, k)
  {
    forall i: nat | i < |ids| + |triedIds|
      ensures Origin(ids, triedIds, i) in if i < |ids| then NewIds(m.infos) else TriedIds(m.infos)
    {
      if i < |ids| {
        assert ids[i] in ids;
      } else {
        assert triedIds[i - |ids|] in triedIds;
      }
    }
  }

  /** Every entry is the origin of one. */
  lemma OriginOf(m: Model, ids: seq<int>, triedIds: seq<int>, id: int) returns (i: nat)
    requires Lists(ids, NewIds(m.infos)) && Lists(triedIds, TriedIds(m.infos)) && id in m.infos
    ensures i < |ids| + |triedIds| && Origin(ids, triedIds, i) == id
  {
    hide Lists;
    if m.infos[id].inTried {
      var j := ListedAt(triedIds, TriedIds(m.infos), id);
      i := |ids| + j;
    } else {
      i := ListedAt(ids, NewIds(m.infos), id);
    }
  }

  lemma EntryBack(m: Model, q: Model, base: Model, r: Model, image: Image, ids: seq<int>, triedIds: seq<int>,
                  index: map<int, int>, i: nat)
    requires Stores(m, image, ids, triedIds, index) && NewsDone(m.hashing, m.key, q, image.unseen)
    requires Entered(q, base.infos, image.tried) && i < |ids| + |triedIds|
    requires i in base.infos && i in r.infos && r.infos[i] == base.infos[i].(refCount := r.infos[i].refCount)
    ensures Origin(ids, triedIds, i) in m.infos
    ensures Store(r.infos[i]) == Store(m.infos[Origin(ids, triedIds, i)]) && (r.infos[i].inTried <==> i >= |ids|)
  {
    hide Lists, RowOf, NewIds, TriedIds;
    if i < |ids| {
      assert i in q.infos && SameButPos(q.infos[i], Load(image.unseen[i]));
    } else {
      assert i in base.infos && SameButPos(base.infos[i], Load(image.tried[i - q.idCount]).(inTried := true));
    }
  }

  lemma EntriesBack(m: Model, q: Model, base: Model, r: Model, image: Image, ids: seq<int>, triedIds: seq<int>,
                    index: map<int, int>)
    requires Consistent(m, {}, {}) && Stores(m, image, ids, triedIds, index) && NewsDone(m.hashing, m.key, q, image.unseen)
    requires Entered(q, base.infos, image.tried) && base.infos.Keys == r.infos.Keys
    requires forall id :: id in base.infos ==> r.infos[id] == base.infos[id].(refCount := r.infos[id].refCount)
    requires Reading(r, |ids|) && r.idCount == |ids| + |triedIds| && SameSlots(r.newT, m.newT, ids, triedIds)
    ensures SameEntries(r.infos, m.infos, ids, triedIds)
  {
    StoredLists(m, image, ids, triedIds, index);
    Origins(m, ids, triedIds);
    hide Consistent, Stores, NewsDone, Entered, SameSlots, Framed, Covered, Origin, Store;
    forall i: nat | i < |ids| + |triedIds|
      ensures Origin(ids, triedIds, i) in m.infos && i in r.infos
      ensures SameSaved(r.infos[i], m.infos[Origin(ids, triedIds, i)])
    {
      assert i in r.infos && i in base.infos.Keys;
      EntryBack(m, q, base, r, image, ids, triedIds, index, i);
      RefsBack(m, r, ids, triedIds, i);
      OriginRole(m, ids, triedIds, i);
    }
  }

  lemma StoredLists(m: Model, image: Image, ids: seq<int>, triedIds: seq<int>, index: map<int, int>)
    requires Stores(m, image, ids, triedIds, index)
    ensures Lists(ids, NewIds(m.infos)) && Lists(triedIds, TriedIds(m.infos))
  {
    hide Lists, Collected, RowOf;
  }

  lemma OriginRole(m: Model, ids: seq<int>, triedIds: seq<int>, i: nat)
    requires Lists(ids, NewIds(m.infos)) && Lists(triedIds, TriedIds(m.infos)) && i < |ids| + |triedIds|
    ensures Origin(ids, triedIds, i) in m.infos && (m.infos[Origin(ids, triedIds, i)].inTried <==> i >= |ids|)
  {
    if i < |ids| {
      assert ids[i] in ids;
    } else {
      assert triedIds[i - |ids|] in triedIds;
    }
  }

  /** Reading back what was stored gives the same manager with its entries renumbered. */
  lemma ReadBack(m: Model, image: Image, ids: seq<int>, triedIds: seq<int>, index: map<int, int>)
    requires Consistent(m, {}, {}) && Stores(m, image, ids, triedIds, index)
    ensures Renumbered(m, ReadAll(m.hashing, image), ids, triedIds) && Reading(ReadAll(m.hashing, image), |ids|)
  {
    StoredShape(m, image, ids, triedIds, index);
    hide Consistent, Stores, Reading, ReadNews, ReadTrieds, ReadRows, RowOf, Entered, Placed, Distinct, SlotOf, SlotsFor, Lists;
    var blank := Blank(m.hashing, m.key);
    var q := ReadNews(blank, image.unseen, true);
    var base := ReadTrieds(q, image.tried);
    var r := ReadRows(base, |ids|, image.buckets);
    BlankReading(m.hashing, m.key);
    NewsRead(m.hashing, m.key, image.unseen);
    ReadNewsFramed(blank, image.unseen, true);
    StoredSlots(m, image, ids, triedIds, index);
    DistinctSame(m, q, image.tried);
    TriedsRead(q, image.tried);
    ReadTriedsFramed(q, |ids|, image.tried);
    StoredIndex(m, image, ids, triedIds, index);
    StoredMatches(m, q, base, image, ids, triedIds, index);
    hide NewsDone, Indexed, Matches;
    RowsFilled(m, base, ids, index, image.buckets);
    ReadRowsFramed(base, |ids|, image.buckets);
    NewBack(m, r.newT, ids, triedIds, index);
    TriedBack(m, q, r.triedT, image, ids, triedIds, index);
    EntriesBack(m, q, base, r, image, ids, triedIds, index);
  }

  lemma StoredShape(m: Model, image: Image, ids: seq<int>, triedIds: seq<int>, index: map<int, int>)
    requires Consistent(m, {}, {}) && Stores(m, image, ids, triedIds, index)
    ensures Usable(image) && image.key == m.key && image.keySize == KEY_SIZE
    ensures |image.unseen| == |ids| == m.nNew && |image.tried| == |triedIds| == m.nTried
    ensures forall b :: 0 <= b < |image.buckets| ==> image.buckets[b] == RowOf(m.newT, index, b, BUCKET_SIZE)
  {
    hide IdsOk, AddrOk, OrderOk, RefsOk, NewSlotsOk, TriedOk, RowOf;
    assert NewIds(m.infos) - {} == NewIds(m.infos);
  }

  lemma DistinctSame(m: Model, q: Model, entries: seq<Stored>)
    requires q.hashing == m.hashing && q.key == m.key && Distinct(m, entries)
    ensures Distinct(q, entries)
  {
    hide TriedSlot;
    assert forall j :: 0 <= j < |entries| ==> SlotOf(q, entries[j]) == SlotOf(m, entries[j]);
  }

  lemma StoredMatches(m: Model, q: Model, base: Model, image: Image, ids: seq<int>, triedIds: seq<int>, index: map<int, int>)
    requires Stores(m, image, ids, triedIds, index) && NewsDone(m.hashing, m.key, q, image.unseen)
    requires TriedsDone(q, base, image.tried)
    ensures Matches(m, base, ids)
  {
    hide Lists, RowOf, NewIds, TriedIds, Placed;
    forall i | 0 <= i < |ids|
      ensures ids[i] in m.infos && i in base.infos && base.infos[i].address.service == m.infos[ids[i]].address.service
    {
      assert i in q.infos && SameButPos(q.infos[i], Load(image.unseen[i]));
    }
  }

  /** Nothing is dropped, and no address occurs twice. */
  lemma AllKept(m: Model, r: Model, ids: seq<int>, triedIds: seq<int>)
    requires Consistent(m, {}, {}) && Renumbered(m, r, ids, triedIds)
    requires Lists(ids, NewIds(m.infos)) && Lists(triedIds, TriedIds(m.infos))
    ensures Unplaced(r.infos) == {} && NoRivals(r)
  {
    Origins(m, ids, triedIds);
    hide IdsOk, OrderOk, CountsOk, NewSlotsOk, TriedOk, SameSlots, Origin, Lists;
    forall i | i in r.infos ensures r.infos[i].inTried || r.infos[i].refCount != 0 {
      assert Origin(ids, triedIds, i) in m.infos;
    }
    forall i, k | i in r.infos && k in r.infos && k != i
      ensures r.infos[i].address.service.ip != r.infos[k].address.service.ip
    {
      SameAddress(r.infos[i], m.infos[Origin(ids, triedIds, i)]);
      SameAddress(r.infos[k], m.infos[Origin(ids, triedIds, k)]);
      assert Origin(ids, triedIds, i) != Origin(ids, triedIds, k);
    }
  }

  lemma SameAddress(a: Info, b: Info)
    requires SameSaved(a, b)
    ensures a.address == b.address
  {
  }

  lemma RenumberedKept(m: Model, r: Model, n: Model, ids: seq<int>, triedIds: seq<int>)
    requires Renumbered(m, r, ids, triedIds) && Dropped(r, n, {})
    ensures Renumbered(m, n, ids, triedIds)
  {
    hide OrderOk, SameSlots, Origin;
    forall i ensures i in n.infos <==> i in r.infos {
      assert i in n.infos.Keys <==> i in r.infos.Keys - {};
    }
    forall i: nat | i < |ids| + |triedIds| ensures SameSaved(n.infos[i], m.infos[Origin(ids, triedIds, i)]) {
      assert SameButPos(n.infos[i], r.infos[i]);
    }
  }

  /** The same addresses are known, each with the same stored data, reference count and table, and each in the same slots. */
  ghost predicate Restored(m: Model, n: Model) {
    && n.key == m.key && n.nNew == m.nNew && n.nTried == m.nTried && n.byAddr.Keys == m.byAddr.Keys
    && (forall a :: a in m.byAddr ==>
          && m.byAddr[a] in m.infos && a in n.byAddr && n.byAddr[a] in n.infos
          && SameSaved(n.infos[n.byAddr[a]], m.infos[m.byAddr[a]]))
    && SameOccupants(m.infos, m.newT, n.infos, n.newT) && SameOccupants(m.infos, m.triedT, n.infos, n.triedT)
  }

  ghost predicate SameOccupants(infos: map<int, Info>, t: Table, infos': map<int, Info>, t': Table) {
    && t.Keys == t'.Keys
    && (forall s :: s in t ==> t[s] in infos && t'[s] in infos' && infos'[t'[s]].address == infos[t[s]].address)
  }

  lemma OccupantsBack(infos: map<int, Info>, t: Table, infos': map<int, Info>, t': Table, ids: seq<int>, triedIds: seq<int>)
    requires SameEntries(infos', infos, ids, triedIds) && SameSlots(t', t, ids, triedIds)
    ensures SameOccupants(infos, t, infos', t')
  {
    hide Origin;
    forall s | s in t ensures t[s] in infos && t'[s] in infos' && infos'[t'[s]].address == infos[t[s]].address {
      assert s in t'.Keys;
      SameAddress(infos'[t'[s]], infos[Origin(ids, triedIds, t'[s])]);
    }
  }

  lemma AddressBack(m: Model, n: Model, ids: seq<int>, triedIds: seq<int>, a: NetAddr)
    requires AddrOk(m.infos, m.byAddr) && AddrOk(n.infos, n.byAddr) && SameEntries(n.infos, m.infos, ids, triedIds)
    requires Lists(ids, NewIds(m.infos)) && Lists(triedIds, TriedIds(m.infos))
    ensures a in n.byAddr <==> a in m.byAddr
    ensures a in m.byAddr ==>
      m.byAddr[a] in m.infos && n.byAddr[a] in n.infos && SameSaved(n.infos[n.byAddr[a]], m.infos[m.byAddr[a]])
  {
    hide Origin, Lists, SameSaved;
    if a in m.byAddr {
      var i := OriginOf(m, ids, triedIds, m.byAddr[a]);
      SameAddress(n.infos[i], m.infos[m.byAddr[a]]);
    }
    if a in n.byAddr {
      SameAddress(n.infos[n.byAddr[a]], m.infos[Origin(ids, triedIds, n.byAddr[a])]);
    }
  }

  lemma RenumberedRestored(m: Model, n: Model, ids: seq<int>, triedIds: seq<int>)
    requires Consistent(m, {}, {}) && Consistent(n, {}, {}) && Renumbered(m, n, ids, triedIds)
    requires Lists(ids, NewIds(m.infos)) && Lists(triedIds, TriedIds(m.infos))
    ensures Restored(m, n)
  {
    hide Consistent, Lists, SameOccupants, SameSlots, SameEntries, SameSaved, AddrOk;
    OccupantsBack(m.infos, m.newT, n.infos, n.newT, ids, triedIds);
    OccupantsBack(m.infos, m.triedT, n.infos, n.triedT, ids, triedIds);
    ConsistentAddr(m);
    ConsistentAddr(n);
    forall a
      ensures a in n.byAddr <==> a in m.byAddr
      ensures a in m.byAddr ==>
        m.byAddr[a] in m.infos && n.byAddr[a] in n.infos && SameSaved(n.infos[n.byAddr[a]], m.infos[m.byAddr[a]])
    {
      AddressBack(m, n, ids, triedIds, a);
    }
    assert n.byAddr.Keys == m.byAddr.Keys;
  }

  // ----- there is room for all entries -----

  lemma {:induction false} RowSize(row: set<Slot>, b: int, p: nat)
    requires forall s :: s in row ==> s.0 == b && 0 <= s.1 < p
    ensures |row| <= p
    decreases p
  {
    if p == 0 {
      assert row == {};
    } else {
      RowSize(row - {(b, p - 1)}, b, p - 1);
    }
  }

  lemma {:induction false} TableSize(slots: set<Slot>, b: nat, p: nat)
    requires forall s :: s in slots ==> 0 <= s.0 < b && 0 <= s.1 < p
    ensures |slots| <= b * p
    decreases b
  {
    if b == 0 {
      assert slots == {};
    } else {
      var row := set s | s in slots && s.0 == b - 1;
      RowSize(row, b - 1, p);
      TableSize(slots - row, b - 1, p);
      assert b * p == (b - 1) * p + p;
    }
  }

  /** At least as many slots are filled as there are entries with a slot. */
  lemma {:induction false} SlotForEach(ids: set<int>, t: Table, slots: set<Slot>)
    requires slots <= t.Keys && forall id :: id in ids ==> exists s :: s in slots && t[s] == id
    ensures |ids| <= |slots|
    decreases |ids|
  {
    if |ids| > 0 {
      Inhabited(ids);
      var id :| id in ids;
      var s :| s in slots && t[s] == id;
      forall k | k in ids - {id} ensures exists r :: r in slots - {s} && t[r] == k {
        var r :| r in slots && t[r] == k;
        assert r in slots - {s};
      }
      SlotForEach(ids - {id}, t, slots - {s});
    }
  }

  lemma RoomForAll(m: Model)
    requires Consistent(m, {}, {})
    ensures m.nNew <= NEW_BUCKET_COUNT * BUCKET_SIZE && m.nTried <= TRIED_BUCKET_COUNT * BUCKET_SIZE
  {
    hide IdsOk, AddrOk, OrderOk;
    assert NewIds(m.infos) - {} == NewIds(m.infos);
    forall id | id in NewIds(m.infos) ensures exists s :: s in m.newT.Keys && m.newT[s] == id {
      var b := HasNewSlot(m, id);
      assert NewSlot(m.hashing, m.key, b, m.infos[id].address.service) in m.newT.Keys;
    }
    forall id | id in TriedIds(m.infos) ensures exists s :: s in m.triedT.Keys && m.triedT[s] == id {
      assert TriedSlot(m.hashing, m.key, m.infos[id].address.service) in m.triedT.Keys;
    }
    SlotForEach(NewIds(m.infos), m.newT, m.newT.Keys);
    SlotForEach(TriedIds(m.infos), m.triedT, m.triedT.Keys);
    TableSize(m.newT.Keys, NEW_BUCKET_COUNT, BUCKET_SIZE);
    TableSize(m.triedT.Keys, TRIED_BUCKET_COUNT, BUCKET_SIZE);
  }

  /** A saved manager can be loaded: nothing is lost, whatever the ids were. */
  method SaveAndLoad(manager: AddrMan, freshKey: int) returns (copy: AddrMan)
    requires manager.Valid()
    ensures copy.Valid() && Restored(manager.State(), copy.State())
  {
    hide Consistent, AddrMan.NewT, AddrMan.TriedT, Stores, Dropped, Renumbered, NoRivals, Restored, CollisionsOk, ReadAll;
    hide Reading, Lists;
    var image, ids, triedIds, index := Serialize(manager);
    ghost var m := manager.State();
    StoredShape(m, image, ids, triedIds, index);
    StoredLists(m, image, ids, triedIds, index);
    RoomForAll(m);
    ReadBack(m, image, ids, triedIds, index);
    ghost var r := ReadAll(m.hashing, image);
    AllKept(m, r, ids, triedIds);
    copy := new AddrMan(manager.hashing, manager.isRoutable, manager.isValid, freshKey);
    var ok := Unserialize(copy, image, freshKey);
    RenumberedKept(m, r, copy.State(), ids, triedIds);
    RenumberedRestored(m, copy.State(), ids, triedIds);
    NoRecords(copy.State());
  }

  lemma NoRecords(m: Model)
    ensures CollisionsOk(m, {})
  {
  }
}

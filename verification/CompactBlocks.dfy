/**
  Compact block relay (sections "HeaderAndShortIDs" and "Short transaction IDs" of BIP 152): a block sent as short ids and a few
  full transactions is rebuilt from the receiver's pools and the transactions it asks for. The short id is an arbitrary function
  of the witness hash; a transaction is its witness hash and whether it is empty.
 */
module CompactBlocks {

  datatype Option<T> = None | Some(value: T)

  datatype Tx = Tx(witnessHash: nat, isNull: bool)

  /** A transaction in full and the number of positions skipped since the last one. */
  datatype Prefilled = Prefilled(index: nat, tx: Tx)

  datatype Message = Message(headerNull: bool, shortIds: seq<nat>, prefilled: seq<Prefilled>)

  datatype Status = Ok | Invalid | Failed | CheckBlockFailed

  type Slots = seq<Option<Tx>>

  type ShortId = nat -> nat

  const MAX_TRANSACTIONS: nat := 4000000 / 40

  const MAX_INDEX: nat := 65535

  /** What serialization guarantees: indices and the transaction count fit sixteen bits. */
  ghost predicate WireOk(m: Message) {
    && |m.shortIds| + |m.prefilled| <= MAX_INDEX
    && forall i :: 0 <= i < |m.prefilled| ==> m.prefilled[i].index <= MAX_INDEX
  }

  // ----- free positions -----

  /** The positions below `n` that have no transaction, in order. */
  ghost function Free(av: Slots, n: nat): (r: seq<nat>)
    requires n <= |av|
    ensures forall p: nat :: p in r <==> p < n && av[p].None?
    ensures |r| <= n
  {
    if n == 0 then [] else if av[n - 1].None? then Free(av, n - 1) + [n - 1] else Free(av, n - 1)
  }

  lemma {:induction false} FreeSorted(av: Slots, n: nat)
    requires n <= |av|
    ensures forall i, j :: 0 <= i < j < |Free(av, n)| ==> Free(av, n)[i] < Free(av, n)[j]
    ensures forall i :: 0 <= i < |Free(av, n)| ==> i <= Free(av, n)[i] < n && av[Free(av, n)[i]].None?
  {
    if n > 0 {
      FreeSorted(av, n - 1);
    }
  }

  lemma {:induction false} FreeSame(av: Slots, av': Slots, n: nat)
    requires n <= |av| && n <= |av'| && forall p :: 0 <= p < n ==> av[p].None? == av'[p].None?
    ensures Free(av, n) == Free(av', n)
  {
    if n > 0 {
      FreeSame(av, av', n - 1);
    }
  }

  /** Filling a free position leaves one fewer. */
  lemma {:induction false} FreeFill(av: Slots, p: nat, tx: Tx, n: nat)
    requires p < n <= |av| && av[p].None?
    ensures |Free(av[p := Some(tx)], n)| == |Free(av, n)| - 1
  {
    var av' := av[p := Some(tx)];
    if p == n - 1 {
      FreeSame(av, av', n - 1);
    } else {
      FreeFill(av, p, tx, n - 1);
    }
  }

  lemma {:induction false} FreeAll(av: Slots, n: nat)
    requires n <= |av| && forall p :: 0 <= p < n ==> av[p].None?
    ensures |Free(av, n)| == n
  {
    if n > 0 {
      FreeAll(av, n - 1);
    }
  }

  // ----- prefilled transactions -----

  /** The position of a prefilled transaction. */
  function PrefilledAt(m: Message, i: nat): (r: nat)
    requires i < |m.prefilled|
    ensures r >= i
  {
    if i == 0 then m.prefilled[0].index else PrefilledAt(m, i - 1) + m.prefilled[i].index + 1
  }

  /** The prefilled transactions are not empty and leave a short id for every other position. */
  ghost predicate PrefilledOk(m: Message) {
    forall i :: 0 <= i < |m.prefilled| ==> PrefilledFits(m, i)
  }

  ghost predicate PrefilledFits(m: Message, i: nat)
    requires i < |m.prefilled|
  {
    !m.prefilled[i].tx.isNull && PrefilledAt(m, i) <= MAX_INDEX && PrefilledAt(m, i) <= |m.shortIds| + i
  }

  /** The slots with the first `i` prefilled transactions in place. */
  ghost function PrefilledSlots(m: Message, i: nat): (r: Slots)
    requires i <= |m.prefilled| && forall j :: 0 <= j < i ==> PrefilledFits(m, j)
    ensures |r| == |m.shortIds| + |m.prefilled|
    ensures forall p :: 0 <= p < |r| && (i == 0 || p > PrefilledAt(m, i - 1)) ==> r[p].None?
    ensures |Free(r, |r|)| == |r| - i
  {
    if i == 0 then
      var r: Slots := seq(|m.shortIds| + |m.prefilled|, _ => None);
      FreeAll(r, |r|);
      r
    else
      var r := PrefilledSlots(m, i - 1);
      assert PrefilledFits(m, i - 1);
      FreeFill(r, PrefilledAt(m, i - 1), m.prefilled[i - 1].tx, |r|);
      r[PrefilledAt(m, i - 1) := Some(m.prefilled[i - 1].tx)]
  }

  lemma NonePrefilled(m: Message)
    ensures PrefilledSlots(m, 0) == seq(|m.shortIds| + |m.prefilled|, _ => None)
  {
  }

  lemma OnePrefilled(m: Message, i: nat)
    requires i < |m.prefilled| && forall j :: 0 <= j <= i ==> PrefilledFits(m, j)
    ensures PrefilledAt(m, i) < |m.shortIds| + |m.prefilled|
    ensures PrefilledSlots(m, i + 1) == PrefilledSlots(m, i)[PrefilledAt(m, i) := Some(m.prefilled[i].tx)]
  {
    assert PrefilledFits(m, i);
  }

  ghost function Start(m: Message): (r: Slots)
    requires PrefilledOk(m)
    ensures |r| == |m.shortIds| + |m.prefilled|
  {
    PrefilledSlots(m, |m.prefilled|)
  }

  /** Position of short id `k`: the ones that are not prefilled, in order. */
  ghost function ShortAt(m: Message, k: nat): (r: nat)
    requires PrefilledOk(m) && k < |m.shortIds|
    ensures r < |m.shortIds| + |m.prefilled| && Start(m)[r].None?
  {
    var f := Free(Start(m), |Start(m)|);
    assert f[k] in f;
    f[k]
  }

  // ----- matching -----

  /** Pools are lists of witness hashes and transactions. */
  type Pool = seq<(nat, Tx)>

  /** An entry looked at, and whether it comes from the extra transactions. */
  datatype Offer = Offer(hash: nat, tx: Tx, isExtra: bool)

  /** A position without a full transaction: whether anything matched, and what is in place. */
  datatype Slot = Slot(have: bool, tx: Option<Tx>)

  /** A first match fills the position. A later one empties it again, unless it is an extra transaction with the same witness
      hash as the one in place. */
  ghost function NextSlot(s: Slot, o: Offer): Slot {
    if !s.have then Slot(true, Some(o.tx))
    else if s.tx.Some? && o.isExtra && s.tx.value.witnessHash == o.tx.witnessHash then s
    else Slot(true, None)
  }

  /** What the offers seen so far make of the position with short id `id`. */
  ghost function SlotAfter(shortId: ShortId, id: nat, offers: seq<Offer>): (r: Slot)
    ensures !r.have ==> r.tx.None?
  {
    if offers == [] then Slot(false, None)
    else
      var n := |offers| - 1;
      var s := SlotAfter(shortId, id, offers[..n]);
      if shortId(offers[n].hash) == id then NextSlot(s, offers[n]) else s
  }

  lemma SlotSnoc(shortId: ShortId, id: nat, offers: seq<Offer>, o: Offer)
    ensures SlotAfter(shortId, id, offers + [o])
            == if shortId(o.hash) == id then NextSlot(SlotAfter(shortId, id, offers), o) else SlotAfter(shortId, id, offers)
  {
    assert (offers + [o])[..|offers|] == offers;
  }

  /** Prefilled positions are untouched; any other is as the offers seen make it. */
  ghost predicate Matched(shortId: ShortId, m: Message, offers: seq<Offer>, av: Slots)
    requires PrefilledOk(m)
  {
    && |av| == |Start(m)|
    && (forall p :: 0 <= p < |av| && Start(m)[p].Some? ==> av[p] == Start(m)[p])
    && (forall k :: 0 <= k < |m.shortIds| ==> av[ShortAt(m, k)] == SlotAfter(shortId, m.shortIds[k], offers).tx)
  }

  ghost predicate HaveOk(shortId: ShortId, m: Message, offers: seq<Offer>, have: seq<bool>)
    requires PrefilledOk(m)
  {
    && |have| == |Start(m)|
    && (forall k :: 0 <= k < |m.shortIds| ==> have[ShortAt(m, k)] == SlotAfter(shortId, m.shortIds[k], offers).have)
  }

  /** Every position is filled. */
  ghost predicate AllFilled(shortId: ShortId, m: Message, offers: seq<Offer>) {
    forall k :: 0 <= k < |m.shortIds| ==> SlotAfter(shortId, m.shortIds[k], offers).tx.Some?
  }

  ghost function Offers(pool: Pool, isExtra: bool): (r: seq<Offer>)
    ensures |r| == |pool| && forall i :: 0 <= i < |pool| ==> r[i] == Offer(pool[i].0, pool[i].1, isExtra)
  {
    seq(|pool|, i requires 0 <= i < |pool| => Offer(pool[i].0, pool[i].1, isExtra))
  }

  ghost predicate Unrepeated(s: seq<nat>) {
    forall i, j :: 0 <= i < j < |s| ==> s[i] != s[j]
  }

  /** Whether, after these short ids, the hash bucket of the last one holds too many. */
  type Crowding = seq<nat> -> bool

  ghost predicate Assignable(shortIds: seq<nat>, crowded: Crowding) {
    Unrepeated(shortIds) && forall n :: 0 < n <= |shortIds| ==> !crowded(shortIds[..n])
  }

  /** Short ids lead to their positions. */
  ghost predicate MapOk(m: Message, ids: map<nat, nat>)
    requires PrefilledOk(m)
  {
    && (forall k :: 0 <= k < |m.shortIds| ==> m.shortIds[k] in ids && ids[m.shortIds[k]] == ShortAt(m, k))
    && (forall id :: id in ids ==> id in m.shortIds)
    && |ids| == |m.shortIds|
  }

  /** The count is that of the positions filled from the pools. */
  ghost predicate CountOk(m: Message, av: Slots, count: nat) {
    count + |Free(av, |av|)| == |m.shortIds|
  }

  lemma ShortPlaces(m: Message)
    requires PrefilledOk(m)
    ensures forall i, j :: 0 <= i < j < |m.shortIds| ==> ShortAt(m, i) < ShortAt(m, j)
  {
    FreeSorted(Start(m), |Start(m)|);
  }

  /** Two short ids that lead to the same position are the same one. */
  lemma OneId(m: Message, ids: map<nat, nat>, k: nat, j: nat)
    requires PrefilledOk(m) && MapOk(m, ids) && k < |m.shortIds| && j < |m.shortIds| && m.shortIds[k] == m.shortIds[j]
    ensures k == j
  {
    hide ShortAt;
    ShortPlaces(m);
  }

  /** An entry whose short id was sent changes the one position that it belongs to. */
  lemma OfferMatches(shortId: ShortId, m: Message, ids: map<nat, nat>, offers: seq<Offer>, av: Slots, have: seq<bool>,
                     k: nat, o: Offer)
    requires PrefilledOk(m) && MapOk(m, ids) && k < |m.shortIds| && shortId(o.hash) == m.shortIds[k]
    requires Matched(shortId, m, offers, av) && HaveOk(shortId, m, offers, have)
    ensures var p := ShortAt(m, k);
            var next := NextSlot(Slot(have[p], av[p]), o);
            && (!have[p] ==> av[p].None?)
            && Matched(shortId, m, offers + [o], av[p := next.tx]) && HaveOk(shortId, m, offers + [o], have[p := next.have])
  {
    hide ShortAt, Start, SlotAfter, NextSlot;
    ShortPlaces(m);
    forall j | 0 <= j < |m.shortIds|
      ensures SlotAfter(shortId, m.shortIds[j], offers + [o])
              == if j == k then NextSlot(SlotAfter(shortId, m.shortIds[k], offers), o)
                 else SlotAfter(shortId, m.shortIds[j], offers)
    {
      SlotSnoc(shortId, m.shortIds[j], offers, o);
      if j != k && m.shortIds[j] == m.shortIds[k] {
        OneId(m, ids, k, j);
      }
    }
  }

  lemma OfferIgnored(shortId: ShortId, m: Message, ids: map<nat, nat>, offers: seq<Offer>, av: Slots, have: seq<bool>, o: Offer)
    requires PrefilledOk(m) && MapOk(m, ids) && shortId(o.hash) !in ids
    requires Matched(shortId, m, offers, av) && HaveOk(shortId, m, offers, have)
    ensures Matched(shortId, m, offers + [o], av) && HaveOk(shortId, m, offers + [o], have)
  {
    hide ShortAt, Start, SlotAfter, NextSlot;
    forall j | 0 <= j < |m.shortIds|
      ensures SlotAfter(shortId, m.shortIds[j], offers + [o]) == SlotAfter(shortId, m.shortIds[j], offers)
    {
      SlotSnoc(shortId, m.shortIds[j], offers, o);
    }
  }

  lemma CountFill(m: Message, av: Slots, count: nat, p: nat, tx: Tx)
    requires CountOk(m, av, count) && p < |av| && av[p].None?
    ensures CountOk(m, av[p := Some(tx)], count + 1)
  {
    hide Free;
    FreeFill(av, p, tx, |av|);
  }

  lemma CountReset(shortId: ShortId, m: Message, offers: seq<Offer>, av: Slots, count: nat, k: nat)
    requires PrefilledOk(m) && Matched(shortId, m, offers, av) && CountOk(m, av, count) && k < |m.shortIds|
    requires av[ShortAt(m, k)].Some?
    ensures count > 0 && CountOk(m, av[ShortAt(m, k) := None], count - 1)
  {
    hide ShortAt, Start, Free, SlotAfter;
    var p := ShortAt(m, k);
    var av' := av[p := None];
    assert av'[p := av[p]] == av;
    FreeFill(av', p, av[p].value, |av|);
    FreeSize(m, av');
  }

  /** When the count reaches the number of short ids, every position is filled. */
  lemma CountFull(shortId: ShortId, m: Message, offers: seq<Offer>, av: Slots)
    requires PrefilledOk(m) && Matched(shortId, m, offers, av) && CountOk(m, av, |m.shortIds|)
    ensures AllFilled(shortId, m, offers)
  {
    hide ShortAt, Start, SlotAfter;
    forall k | 0 <= k < |m.shortIds| ensures SlotAfter(shortId, m.shortIds[k], offers).tx.Some? {
      assert ShortAt(m, k) !in Free(av, |av|);
    }
  }

  /** Free positions are at most those of short ids. */
  lemma FreeSize(m: Message, av: Slots)
    requires PrefilledOk(m) && |av| == |Start(m)| && forall p :: 0 <= p < |av| && Start(m)[p].Some? ==> av[p].Some?
    ensures |Free(av, |av|)| <= |m.shortIds|
  {
    hide PrefilledSlots;
    FreeFewer(av, Start(m), |av|);
  }

  lemma {:induction false} FreeFewer(a: Slots, b: Slots, n: nat)
    requires n <= |a| && n <= |b| && forall p :: 0 <= p < n && b[p].Some? ==> a[p].Some?
    ensures |Free(a, n)| <= |Free(b, n)|
  {
    if n > 0 {
      FreeFewer(a, b, n - 1);
    }
  }

  // ----- the receiver -----

  class PartiallyDownloadedBlock {
    var headerNull: bool
    var available: Slots
    var mempoolCount: nat
    const pool: Pool

    constructor (pool: Pool)
      ensures headerNull && available == [] && this.pool == pool && mempoolCount == 0
    {
      headerNull, available, mempoolCount, this.pool := true, [], 0, pool;
    }

    /** Puts the prefilled transactions in place. The first that is empty or leaves a gap without short ids is an error. */
    method Prefill(m: Message) returns (ok: bool)
      requires available == seq(|m.shortIds| + |m.prefilled|, _ => None)
      requires forall i :: 0 <= i < |m.prefilled| ==> m.prefilled[i].index <= MAX_INDEX
      modifies this`available
      ensures ok <==> PrefilledOk(m)
      ensures ok ==> available == Start(m)
    {
      hide Free, PrefilledSlots;
      var last: int := -1;
      var i := 0;
      NonePrefilled(m);
      while i < |m.prefilled|
        invariant 0 <= i <= |m.prefilled| && |available| == |m.shortIds| + |m.prefilled|
        invariant last == if i == 0 then -1 else PrefilledAt(m, i - 1)
        invariant last <= MAX_INDEX
        invariant forall j :: 0 <= j < i ==> PrefilledFits(m, j)
        invariant available == PrefilledSlots(m, i)
      {
        if m.prefilled[i].tx.isNull {
          assert !PrefilledFits(m, i);
          return false;
        }
        last := last + m.prefilled[i].index + 1;
        assert last == PrefilledAt(m, i);
        if last > MAX_INDEX {
          assert !PrefilledFits(m, i);
          return false;
        }
        if last > |m.shortIds| + i {
          assert !PrefilledFits(m, i);
          return false;
        }
        OnePrefilled(m, i);
        available := available[last := Some(m.prefilled[i].tx)];
        i := i + 1;
      }
      return true;
    }

    /** Steps over filled positions to that of short id `i`. */
    method SkipFilled(m: Message, i: nat, offset: nat) returns (r: nat)
      requires PrefilledOk(m) && available == Start(m) && i < |m.shortIds|
      requires (if i == 0 then 0 else ShortAt(m, i - 1) + 1) == i + offset <= ShortAt(m, i)
      ensures i + r == ShortAt(m, i)
    {
      hide Start, Free;
      r := offset;
      while available[i + r].Some?
        invariant offset <= r && i + r <= ShortAt(m, i)
        decreases ShortAt(m, i) - r
      {
        NotYet(m, i, i + r);
        r := r + 1;
      }
      Reached(m, i, i + r);
    }

    /** Gives the short ids their positions in order. Too crowded a hash bucket or two equal short ids give up,
        and nothing else. */
    method AssignShortIds(m: Message, crowded: Crowding) returns (ok: bool, ids: map<nat, nat>)
      requires PrefilledOk(m) && WireOk(m) && available == Start(m)
      ensures ok <==> Assignable(m.shortIds, crowded)
      ensures ok ==> MapOk(m, ids)
    {
      hide Free, Start, ShortAt, AssignedUpTo, Unrepeated;
      ids := map[];
      var offset: nat := 0;
      ShortPlaces(m);
      NoneAssigned(m);
      var i := 0;
      while i < |m.shortIds|
        invariant 0 <= i <= |m.shortIds| && AssignedUpTo(m, ids, i)
        invariant i + offset == if i == 0 then 0 else ShortAt(m, i - 1) + 1
        invariant forall n :: 0 < n <= i ==> !crowded(m.shortIds[..n])
      {
        offset := SkipFilled(m, i, offset);
        assert i + offset <= MAX_INDEX;
        AssignOne(m, ids, i);
        ids := ids[m.shortIds[i] := i + offset];
        if crowded(m.shortIds[..i + 1]) {
          return false, ids;
        }
        i := i + 1;
      }
      Assigned(m, ids);
      if |ids| != |m.shortIds| {
        return false, ids;
      }
      AllAssigned(m, ids);
      return true, ids;
    }

    /** Looks at one entry whose short id was sent: fills its position, or empties it on a second match (a different one, for an
        extra transaction). */
    method TakeOffer(shortId: ShortId, m: Message, ids: map<nat, nat>, o: Offer, have0: seq<bool>, ghost offers: seq<Offer>)
      returns (have: seq<bool>)
      requires PrefilledOk(m) && MapOk(m, ids)
      requires Matched(shortId, m, offers, available) && HaveOk(shortId, m, offers, have0) && CountOk(m, available, mempoolCount)
      modifies this`available, this`mempoolCount
      ensures Matched(shortId, m, offers + [o], available) && HaveOk(shortId, m, offers + [o], have)
      ensures CountOk(m, available, mempoolCount)
    {
      hide Matched, CountOk, Start, ShortAt, MapOk, HaveOk;
      have := have0;
      var id := shortId(o.hash);
      if id in ids {
        ghost var k := FindId(m, ids, id);
        MatchSizes(shortId, m, offers, available, have);
        OfferMatches(shortId, m, ids, offers, available, have, k, o);
        var p := ids[id];
        assert have[p] ==> have[p := true] == have;
        assert available[p := available[p]] == available;
        if !have[p] {
          CountFill(m, available, mempoolCount, p, o.tx);
          available := available[p := Some(o.tx)];
          have := have[p := true];
          mempoolCount := mempoolCount + 1;
        } else if available[p].Some? && (!o.isExtra || available[p].value.witnessHash != o.tx.witnessHash) {
          CountReset(shortId, m, offers, available, mempoolCount, k);
          available := available[p := None];
          mempoolCount := mempoolCount - 1;
        }
      } else {
        OfferIgnored(shortId, m, ids, offers, available, have, o);
      }
    }

    /** Looks through the mempool, until every position is filled. */
    method MatchPool(shortId: ShortId, m: Message, ids: map<nat, nat>) returns (have: seq<bool>, ghost seen: nat)
      requires PrefilledOk(m) && MapOk(m, ids) && available == Start(m) && mempoolCount == 0
      modifies this`available, this`mempoolCount
      ensures seen <= |pool| && Matched(shortId, m, Offers(pool[..seen], false), available)
      ensures HaveOk(shortId, m, Offers(pool[..seen], false), have) && CountOk(m, available, mempoolCount)
      ensures seen < |pool| ==> AllFilled(shortId, m, Offers(pool[..seen], false))
    {
      hide Matched, CountOk, Start, ShortAt, HaveOk, AllFilled;
      have := seq(|available|, _ => false);
      MatchStart(shortId, m, have);
      seen := 0;
      assert Offers(pool[..0], false) == [];
      var i := 0;
      while i < |pool|
        invariant 0 <= i <= |pool| && seen == i && Matched(shortId, m, Offers(pool[..i], false), available)
        invariant HaveOk(shortId, m, Offers(pool[..i], false), have) && CountOk(m, available, mempoolCount)
      {
        OffersStep(pool, i, false);
        have := TakeOffer(shortId, m, ids, Offer(pool[i].0, pool[i].1, false), have, Offers(pool[..i], false));
        seen := i + 1;
        if mempoolCount == |ids| {
          CountFull(shortId, m, Offers(pool[..seen], false), available);
          break;
        }
        i := i + 1;
      }
    }

    /** Looks through the extra transactions, until every position is filled. */
    method MatchExtra(shortId: ShortId, m: Message, ids: map<nat, nat>, extra: Pool, have0: seq<bool>, ghost first: seq<Offer>)
      returns (ghost seen: nat)
      requires PrefilledOk(m) && MapOk(m, ids)
      requires Matched(shortId, m, first, available) && HaveOk(shortId, m, first, have0) && CountOk(m, available, mempoolCount)
      modifies this`available, this`mempoolCount
      ensures seen <= |extra| && Matched(shortId, m, first + Offers(extra[..seen], true), available)
      ensures seen < |extra| ==> AllFilled(shortId, m, first + Offers(extra[..seen], true))
    {
      hide Matched, CountOk, Start, ShortAt, HaveOk, AllFilled;
      var have := have0;
      seen := 0;
      assert first + Offers(extra[..0], true) == first;
      var i := 0;
      while i < |extra|
        invariant 0 <= i <= |extra| && seen == i && Matched(shortId, m, first + Offers(extra[..i], true), available)
        invariant HaveOk(shortId, m, first + Offers(extra[..i], true), have) && CountOk(m, available, mempoolCount)
      {
        OffersStep(extra, i, true);
        var o := Offer(extra[i].0, extra[i].1, true);
        assert first + (Offers(extra[..i], true) + [o]) == first + Offers(extra[..i], true) + [o];
        have := TakeOffer(shortId, m, ids, o, have, first + Offers(extra[..i], true));
        seen := i + 1;
        if mempoolCount == |ids| {
          CountFull(shortId, m, first + Offers(extra[..seen], true), available);
          break;
        }
        i := i + 1;
      }
    }

    /** Takes in a message. When it is accepted, prefilled transactions are in place, and every other position is as the entries
        of the pools with its short id make it, as far as they were looked at: all of them unless every position was filled. */
    method InitData(shortId: ShortId, m: Message, extra: Pool, crowded: Crowding)
      returns (status: Status, ghost seen: nat, ghost seenExtra: nat)
      requires WireOk(m) && headerNull && available == [] && mempoolCount == 0
      modifies this
      ensures status == Ok ==> !headerNull && PrefilledOk(m) && seen <= |pool| && seenExtra <= |extra|
      ensures status == Ok ==> Matched(shortId, m, Looked(pool, seen, extra, seenExtra), available)
      ensures status == Ok && seen < |pool| ==> AllFilled(shortId, m, Offers(pool[..seen], false))
      ensures status == Ok && seenExtra < |extra| ==> AllFilled(shortId, m, Looked(pool, seen, extra, seenExtra))
      ensures status == Invalid <==> m.headerNull || (m.shortIds == [] && m.prefilled == []) || !PrefilledOk(m)
      ensures status == Failed <==> status != Invalid && !Assignable(m.shortIds, crowded)
      ensures status in {Ok, Invalid, Failed}
    {
      hide Matched, CountOk, Start, MapOk, PrefilledOk, HaveOk, AllFilled, Assignable;
      seen, seenExtra := 0, 0;
      if m.headerNull || (m.shortIds == [] && m.prefilled == []) {
        return Invalid, 0, 0;
      }
      // A message of at most 65535 transactions passes the check of the block weight.
      assert |m.shortIds| + |m.prefilled| <= MAX_TRANSACTIONS;
      headerNull := m.headerNull;
      available := seq(|m.shortIds| + |m.prefilled|, _ => None);
      var ok := Prefill(m);
      if !ok {
        return Invalid, 0, 0;
      }
      var ids;
      ok, ids := AssignShortIds(m, crowded);
      if !ok {
        return Failed, 0, 0;
      }
      var have;
      have, seen := MatchPool(shortId, m, ids);
      seenExtra := MatchExtra(shortId, m, ids, extra, have, Offers(pool[..seen], false));
      status := Ok;
    }

    predicate IsTxAvailable(i: nat)
      requires i < |available|
      reads this
    {
      available[i].Some?
    }

    /** The positions to ask for. */
    method MissingIndexes() returns (indexes: seq<nat>)
      ensures indexes == Free(available, |available|)
    {
      indexes := [];
      var i := 0;
      while i < |available|
        invariant 0 <= i <= |available| && indexes == Free(available, i)
      {
        if !IsTxAvailable(i) {
          indexes := indexes + [i];
        }
        i := i + 1;
      }
    }

    /** Completes the block with the missing transactions in order. Too few or too many are an error; the block check decides
        otherwise. The object cannot be used again unless there were too few. */
    method FillBlock(missing: seq<Tx>, checkOk: bool, corruption: bool) returns (status: Status, vtx: seq<Tx>)
      requires !headerNull
      modifies this`headerNull, this`available
      ensures var need := |Free(old(available), |old(available)|)|;
              && (|missing| != need ==> status == Invalid)
              && (|missing| == need ==>
                    && status == (if checkOk then Ok else if corruption then Failed else CheckBlockFailed)
                    && vtx == Merged(old(available), missing, |old(available)|))
              && (|missing| >= need ==> headerNull && available == [])
    {
      ghost var start := available;
      vtx := [];
      var offset := 0;
      var i := 0;
      while i < |available|
        invariant 0 <= i <= |available| == |start| && offset == |Free(start, i)| <= |missing|
        invariant forall p :: i <= p < |start| ==> available[p] == start[p]
        invariant vtx == Merged(start, missing, i)
      {
        if available[i].None? {
          if |missing| <= offset {
            FreeGrows(start, i + 1);
            return Invalid, vtx;
          }
          vtx := vtx + [missing[offset]];
          offset := offset + 1;
        } else {
          vtx := vtx + [available[i].value];
          available := available[i := None];
        }
        i := i + 1;
      }
      headerNull := true;
      available := [];
      if |missing| != offset {
        return Invalid, vtx;
      }
      status := if checkOk then Ok else if corruption then Failed else CheckBlockFailed;
    }
  }

  lemma {:induction false} FreeGrows(av: Slots, n: nat)
    requires n <= |av|
    ensures |Free(av, n)| <= |Free(av, |av|)|
    decreases |av| - n
  {
    if n < |av| {
      FreeGrows(av, n + 1);
    }
  }

  /** The transactions of the first `n` positions, the empty ones filled from a list in order. */
  ghost function Merged(av: Slots, missing: seq<Tx>, n: nat): seq<Tx>
    requires n <= |av| && |Free(av, n)| <= |missing|
  {
    if n == 0 then []
    else Merged(av, missing, n - 1) + [if av[n - 1].None? then missing[|Free(av, n - 1)|] else av[n - 1].value]
  }

  /** The entries looked at, in order. */
  ghost function Looked(pool: Pool, seen: nat, extra: Pool, seenExtra: nat): seq<Offer>
    requires seen <= |pool| && seenExtra <= |extra|
  {
    Offers(pool[..seen], false) + Offers(extra[..seenExtra], true)
  }

  lemma OffersStep(pool: Pool, i: nat, isExtra: bool)
    requires i < |pool|
    ensures Offers(pool[..i + 1], isExtra) == Offers(pool[..i], isExtra) + [Offer(pool[i].0, pool[i].1, isExtra)]
  {
  }

  lemma MatchSizes(shortId: ShortId, m: Message, offers: seq<Offer>, av: Slots, have: seq<bool>)
    requires PrefilledOk(m) && Matched(shortId, m, offers, av) && HaveOk(shortId, m, offers, have)
    ensures |av| == |have| == |m.shortIds| + |m.prefilled|
  {
  }

  lemma MatchStart(shortId: ShortId, m: Message, have: seq<bool>)
    requires PrefilledOk(m) && have == seq(|Start(m)|, _ => false)
    ensures Matched(shortId, m, [], Start(m)) && HaveOk(shortId, m, [], have) && CountOk(m, Start(m), 0)
  {
    hide PrefilledSlots;
  }

  /** Whatever is in place was offered for its short id. */
  lemma {:induction false} SlotOffered(shortId: ShortId, id: nat, offers: seq<Offer>)
    ensures SlotAfter(shortId, id, offers).tx.Some? ==>
              exists i :: 0 <= i < |offers| && shortId(offers[i].hash) == id
                          && offers[i].tx == SlotAfter(shortId, id, offers).tx.value
  {
    if offers != [] {
      var n := |offers| - 1;
      SlotOffered(shortId, id, offers[..n]);
      var s := SlotAfter(shortId, id, offers[..n]);
      if s.tx.Some? {
        var i :| 0 <= i < n && shortId(offers[..n][i].hash) == id && offers[..n][i].tx == s.tx.value;
        assert shortId(offers[i].hash) == id && offers[i].tx == s.tx.value;
      }
    }
  }

  lemma {:induction false} NoneOffered(shortId: ShortId, id: nat, offers: seq<Offer>)
    requires forall i :: 0 <= i < |offers| ==> shortId(offers[i].hash) != id
    ensures SlotAfter(shortId, id, offers) == Slot(false, None)
  {
    if offers != [] {
      NoneOffered(shortId, id, offers[..|offers| - 1]);
    }
  }

  /** A single match that no different transaction contradicts fills its position. */
  lemma {:induction false} SingleMatchFills(shortId: ShortId, id: nat, offers: seq<Offer>, at: nat)
    requires at < |offers| && shortId(offers[at].hash) == id
    requires forall i :: 0 <= i < at ==> shortId(offers[i].hash) != id
    requires forall i :: at < i < |offers| && shortId(offers[i].hash) == id ==>
               offers[i].isExtra && offers[i].tx.witnessHash == offers[at].tx.witnessHash
    ensures SlotAfter(shortId, id, offers) == Slot(true, Some(offers[at].tx))
  {
    var n := |offers| - 1;
    if at == n {
      NoneOffered(shortId, id, offers[..n]);
    } else {
      SingleMatchFills(shortId, id, offers[..n], at);
    }
  }

  lemma FindId(m: Message, ids: map<nat, nat>, id: nat) returns (k: nat)
    requires PrefilledOk(m) && MapOk(m, ids) && id in ids
    ensures k < |m.shortIds| && m.shortIds[k] == id && ids[id] == ShortAt(m, k)
  {
    hide ShortAt;
    k :| 0 <= k < |m.shortIds| && m.shortIds[k] == id;
  }

  /** The first `n` short ids have been given their positions; equal ones the last of theirs. */
  ghost predicate AssignedUpTo(m: Message, ids: map<nat, nat>, n: nat)
    requires PrefilledOk(m) && n <= |m.shortIds|
  {
    ids.Keys == Members(m.shortIds[..n]) && forall id :: id in ids ==> LastOf(m, n, id, ids[id])
  }

  lemma NoneAssigned(m: Message)
    requires PrefilledOk(m)
    ensures AssignedUpTo(m, map[], 0)
  {
  }

  lemma AssignOne(m: Message, ids: map<nat, nat>, i: nat)
    requires PrefilledOk(m) && i < |m.shortIds| && AssignedUpTo(m, ids, i)
    ensures AssignedUpTo(m, ids[m.shortIds[i] := ShortAt(m, i)], i + 1)
  {
    hide ShortAt, Members;
    var ids' := ids[m.shortIds[i] := ShortAt(m, i)];
    MembersStep(m.shortIds, i);
    forall id | id in ids' ensures LastOf(m, i + 1, id, ids'[id]) {
      if id == m.shortIds[i] {
        assert m.shortIds[i] == id && ShortAt(m, i) == ids'[id];
      } else {
        assert LastOf(m, i, id, ids[id]);
        var k :| 0 <= k < i && m.shortIds[k] == id && ShortAt(m, k) == ids[id] && forall j :: k < j < i ==> m.shortIds[j] != id;
        assert m.shortIds[k] == id && ShortAt(m, k) == ids'[id];
      }
    }
  }

  lemma AllAssigned(m: Message, ids: map<nat, nat>)
    requires PrefilledOk(m) && AssignedUpTo(m, ids, |m.shortIds|) && |ids| == |m.shortIds|
    ensures MapOk(m, ids)
  {
    hide ShortAt;
    assert m.shortIds[..|m.shortIds|] == m.shortIds;
    assert |ids.Keys| == |ids|;
    NoRepeats(m.shortIds);
    MapDone(m, ids);
  }

  /** `p` is the position of the last of the first `n` short ids that equals `id`. */
  ghost predicate LastOf(m: Message, n: nat, id: nat, p: nat)
    requires PrefilledOk(m) && n <= |m.shortIds|
  {
    exists k :: 0 <= k < n && m.shortIds[k] == id && ShortAt(m, k) == p && forall j :: k < j < n ==> m.shortIds[j] != id
  }

  ghost function Members(s: seq<nat>): set<nat> {
    set x | x in s
  }

  lemma MembersStep(s: seq<nat>, i: nat)
    requires i < |s|
    ensures Members(s[..i + 1]) == Members(s[..i]) + {s[i]}
  {
    assert s[..i + 1] == s[..i] + [s[i]];
  }

  lemma {:induction false} MembersSize(s: seq<nat>)
    ensures |Members(s)| <= |s| && (Unrepeated(s) ==> |Members(s)| == |s|)
  {
    if s != [] {
      var n := |s| - 1;
      MembersSize(s[..n]);
      MembersStep(s, n);
      assert s[..n + 1] == s;
      assert Unrepeated(s) ==> s[n] !in Members(s[..n]);
    }
  }

  /** After the last short id, there is an entry for each exactly when none comes twice. */
  lemma Assigned(m: Message, ids: map<nat, nat>)
    requires PrefilledOk(m) && AssignedUpTo(m, ids, |m.shortIds|)
    ensures |ids| == |m.shortIds| <==> Unrepeated(m.shortIds)
  {
    hide ShortAt;
    assert m.shortIds[..|m.shortIds|] == m.shortIds;
    assert |ids.Keys| == |ids|;
    MembersSize(m.shortIds);
    if |ids| == |m.shortIds| {
      NoRepeats(m.shortIds);
    }
  }

  /** As many members as elements means no element comes twice. */
  lemma {:induction false} NoRepeats(s: seq<nat>)
    requires |Members(s)| == |s|
    ensures Unrepeated(s)
  {
    if s != [] {
      var n := |s| - 1;
      MembersSize(s[..n]);
      MembersStep(s, n);
      assert s[..n + 1] == s;
      assert |Members(s)| <= |Members(s[..n])| + 1;
      NoRepeats(s[..n]);
      assert s[n] !in Members(s[..n]);
    }
  }

  lemma NotYet(m: Message, i: nat, p: nat)
    requires PrefilledOk(m) && i < |m.shortIds| && p <= ShortAt(m, i) && Start(m)[p].Some?
    ensures p < ShortAt(m, i)
  {
  }

  /** The first free position after that of the short id before. */
  lemma Reached(m: Message, i: nat, p: nat)
    requires PrefilledOk(m) && i < |m.shortIds| && (if i == 0 then 0 else ShortAt(m, i - 1) + 1) <= p <= ShortAt(m, i)
    requires Start(m)[p].None?
    ensures p == ShortAt(m, i)
  {
    hide PrefilledSlots;
    var f := Free(Start(m), |Start(m)|);
    FreeSorted(Start(m), |Start(m)|);
    assert p in f;
    var k :| 0 <= k < |f| && f[k] == p;
  }

  lemma MapDone(m: Message, ids: map<nat, nat>)
    requires PrefilledOk(m) && |ids| == |m.shortIds| && ids.Keys == Members(m.shortIds)
    requires Unrepeated(m.shortIds)
    requires forall id :: id in ids ==> LastOf(m, |m.shortIds|, id, ids[id])
    ensures MapOk(m, ids)
  {
    hide ShortAt;
    hide LastOf, Unrepeated, Members;
    forall k | 0 <= k < |m.shortIds|
      ensures m.shortIds[k] in ids && ids[m.shortIds[k]] == ShortAt(m, k)
    {
      InMembers(m.shortIds, k);
      LastIsOnly(m, m.shortIds[k], ids[m.shortIds[k]], k);
    }
    assert forall id :: id in ids ==> id in m.shortIds by { MembersIn(m.shortIds); }
  }

  lemma InMembers(s: seq<nat>, k: nat)
    requires k < |s|
    ensures s[k] in Members(s)
  {
  }

  lemma MembersIn(s: seq<nat>)
    ensures forall x: nat :: x in Members(s) ==> x in s
  {
  }

  lemma LastIsOnly(m: Message, id: nat, p: nat, k: nat)
    requires PrefilledOk(m) && LastOf(m, |m.shortIds|, id, p) && Unrepeated(m.shortIds) && k < |m.shortIds| && m.shortIds[k] == id
    ensures p == ShortAt(m, k)
  {
    hide ShortAt;
  }

  // ----- the sender -----

  /** The first transaction in full, short ids for the others. */
  method Encode(shortId: ShortId, block: seq<Tx>) returns (m: Message)
    requires |block| > 0
    ensures m == Encoded(shortId, block)
  {
    var ids := seq(|block| - 1, _ => 0);
    var i := 1;
    while i < |block|
      invariant 1 <= i <= |block| && |ids| == |block| - 1
      invariant forall k :: 0 <= k < i - 1 ==> ids[k] == shortId(block[k + 1].witnessHash)
    {
      ids := ids[i - 1 := shortId(block[i].witnessHash)];
      i := i + 1;
    }
    m := Message(false, ids, [Prefilled(0, block[0])]);
  }

  ghost function Encoded(shortId: ShortId, block: seq<Tx>): Message
    requires |block| > 0
  {
    Message(false, seq<nat>(|block| - 1, k requires 0 <= k < |block| - 1 => shortId(block[k + 1].witnessHash)),
            [Prefilled(0, block[0])])
  }

  /** A message stands for a block: full transactions and short ids are those of the block at their positions. */
  ghost predicate Represents(shortId: ShortId, m: Message, block: seq<Tx>) {
    && PrefilledOk(m) && |Start(m)| == |block|
    && (forall p :: 0 <= p < |block| && Start(m)[p].Some? ==> Start(m)[p].value == block[p])
    && (forall k :: 0 <= k < |m.shortIds| ==> m.shortIds[k] == shortId(block[ShortAt(m, k)].witnessHash))
  }

  lemma {:induction false} FreeAfterFirst(av: Slots, n: nat)
    requires 1 <= n <= |av| && av[0].Some? && forall p :: 0 < p < |av| ==> av[p].None?
    ensures |Free(av, n)| == n - 1 && forall k :: 0 <= k < n - 1 ==> Free(av, n)[k] == k + 1
  {
    if n > 1 {
      FreeAfterFirst(av, n - 1);
    }
  }

  lemma EncodedRepresents(shortId: ShortId, block: seq<Tx>)
    requires |block| > 0 && !block[0].isNull
    ensures Represents(shortId, Encoded(shortId, block), block)
  {
    var m := Encoded(shortId, block);
    assert PrefilledFits(m, 0);
    OnePrefilled(m, 0);
    NonePrefilled(m);
    var av := Start(m);
    hide PrefilledSlots;
    FreeAfterFirst(av, |av|);
  }

  /** No transaction of the pools has the short id of a different transaction of the block. */
  ghost predicate NoForeign(shortId: ShortId, block: seq<Tx>, offers: seq<Offer>) {
    forall j, p :: 0 <= j < |offers| && 0 <= p < |block| && shortId(offers[j].hash) == shortId(block[p].witnessHash) ==>
      offers[j].tx == block[p]
  }

  ghost predicate Agrees(av: Slots, block: seq<Tx>) {
    |av| == |block| && forall p :: 0 <= p < |av| && av[p].Some? ==> av[p].value == block[p]
  }

  lemma MatchedAgrees(shortId: ShortId, m: Message, offers: seq<Offer>, block: seq<Tx>, av: Slots)
    requires Represents(shortId, m, block) && Matched(shortId, m, offers, av) && NoForeign(shortId, block, offers)
    ensures Agrees(av, block)
  {
    hide PrefilledSlots, SlotAfter;
    forall p | 0 <= p < |av| && av[p].Some? ensures av[p].value == block[p] {
      if Start(m)[p].None? {
        var f := Free(Start(m), |Start(m)|);
        assert p in f;
        var k :| 0 <= k < |f| && f[k] == p;
        assert ShortAt(m, k) == p;
        SlotOffered(shortId, m.shortIds[k], offers);
      }
    }
  }

  /** The transactions of a block at the given positions. */
  ghost function Picked(block: seq<Tx>, indexes: seq<nat>): seq<Tx>
    requires forall i :: 0 <= i < |indexes| ==> indexes[i] < |block|
  {
    seq(|indexes|, i requires 0 <= i < |indexes| => block[indexes[i]])
  }

  lemma {:induction false} MergedIsBlock(av: Slots, block: seq<Tx>, missing: seq<Tx>, n: nat)
    requires Agrees(av, block) && n <= |av| && |Free(av, n)| <= |missing|
    requires forall k :: 0 <= k < |Free(av, n)| ==> Free(av, n)[k] < |block| && missing[k] == block[Free(av, n)[k]]
    ensures Merged(av, missing, n) == block[..n]
  {
    if n > 0 {
      var f := Free(av, n - 1);
      assert Free(av, n)[..|f|] == f;
      assert forall k :: 0 <= k < |f| ==> f[k] == Free(av, n)[k];
      MergedIsBlock(av, block, missing, n - 1);
      assert block[..n] == block[..n - 1] + [block[n - 1]];
    }
  }

  // ----- the request -----

  /** Strictly increasing sixteen-bit positions. */
  ghost predicate Increasing(x: seq<nat>) {
    && (forall i, j :: 0 <= i < j < |x| ==> x[i] < x[j])
    && (forall i :: 0 <= i < |x| ==> x[i] <= MAX_INDEX)
  }

  /** Each position as the distance from the one after its predecessor. */
  ghost function Diffs(x: seq<nat>): (r: seq<int>)
    ensures |r| == |x|
  {
    seq<int>(|x|, i requires 0 <= i < |x| => DiffAt(x, i))
  }

  function DiffAt(x: seq<nat>, i: nat): int
    requires i < |x|
  {
    var start: int := if i == 0 then 0 else x[i - 1] + 1;
    var to: int := x[i];
    to - start
  }

  method EncodeIndexes(x: seq<nat>) returns (d: seq<int>)
    ensures d == Diffs(x)
  {
    d := [];
    var i := 0;
    while i < |x|
      invariant 0 <= i <= |x| && d == Diffs(x)[..i]
    {
      d := d + [DiffAt(x, i)];
      i := i + 1;
    }
  }

  /** The only positions that can have led to the first distances. */
  ghost function Undiff(d: seq<int>, i: nat): int
    requires i < |d|
  {
    d[i] + if i == 0 then 0 else Undiff(d, i - 1) + 1
  }

  lemma {:induction false} DiffsDetermine(x: seq<nat>, i: nat)
    requires i < |x|
    ensures x[i] == Undiff(Diffs(x), i)
  {
    if i > 0 {
      DiffsDetermine(x, i - 1);
    }
  }

  /** Reads positions; distances or positions beyond sixteen bits are an error. It succeeds exactly on what encoding produces. */
  method DecodeIndexes(d: seq<int>) returns (r: Option<seq<nat>>)
    ensures forall x :: Increasing(x) && Diffs(x) == d ==> r == Some(x)
    ensures r.Some? ==> Increasing(r.value) && Diffs(r.value) == d
  {
    hide Undiff, Diffs;
    var x: seq<nat> := [];
    var i := 0;
    while i < |d|
      invariant 0 <= i <= |d| && |x| == i
      invariant forall j :: 0 <= j < i ==> 0 <= d[j] <= MAX_INDEX && x[j] == d[j]
    {
      if d[i] < 0 || d[i] > MAX_INDEX {
        NotEncoded(d, i);
        return None;
      }
      x := x + [d[i]];
      i := i + 1;
    }
    var offset := 0;
    var j := 0;
    while j < |x|
      invariant 0 <= j <= |x| == |d|
      invariant forall k :: j <= k < |d| ==> d[k] >= 0 && x[k] == d[k]
      invariant forall k :: 0 <= k < j ==> 0 <= Undiff(d, k) <= MAX_INDEX && x[k] == Undiff(d, k)
      invariant offset == if j == 0 then 0 else x[j - 1] + 1
    {
      UndiffStep(d, j);
      if x[j] + offset > MAX_INDEX {
        TooFar(d, j);
        return None;
      }
      x := x[j := x[j] + offset];
      offset := x[j] + 1;
      j := j + 1;
    }
    Decoded(d, x);
    return Some(x);
  }

  lemma UndiffStep(d: seq<int>, i: nat)
    requires i < |d|
    ensures Undiff(d, i) == d[i] + if i == 0 then 0 else Undiff(d, i - 1) + 1
  {
  }

  lemma NotEncoded(d: seq<int>, i: nat)
    requires i < |d| && (d[i] < 0 || d[i] > MAX_INDEX)
    ensures forall x :: Increasing(x) ==> Diffs(x) != d
  {
    forall x | Increasing(x) && Diffs(x) == d ensures false {
      DiffRange(x, i);
    }
  }

  lemma DiffRange(x: seq<nat>, i: nat)
    requires Increasing(x) && i < |x|
    ensures 0 <= Diffs(x)[i] <= MAX_INDEX
  {
  }

  lemma TooFar(d: seq<int>, i: nat)
    requires i < |d| && Undiff(d, i) > MAX_INDEX
    ensures forall x :: Increasing(x) ==> Diffs(x) != d
  {
    forall x | Increasing(x) && Diffs(x) == d ensures false {
      DiffsDetermine(x, i);
    }
  }

  lemma {:induction false} UndiffRises(d: seq<int>, i: nat, j: nat)
    requires i < j < |d| && forall k :: 0 <= k < |d| ==> d[k] >= 0
    ensures Undiff(d, i) < Undiff(d, j)
  {
    if i < j - 1 {
      UndiffRises(d, i, j - 1);
    }
  }

  lemma Decoded(d: seq<int>, x: seq<nat>)
    requires |x| == |d| && forall k :: 0 <= k < |d| ==> d[k] >= 0 || k == 0
    requires forall k :: 0 <= k < |d| ==> 0 <= Undiff(d, k) <= MAX_INDEX && x[k] == Undiff(d, k)
    ensures Increasing(x) && Diffs(x) == d
    ensures forall y :: Diffs(y) == d ==> x == y
  {
    hide Undiff, Diffs;
    forall k | 0 <= k < |d| ensures d[k] >= 0 {
      UndiffStep(d, k);
    }
    forall i, j | 0 <= i < j < |x| ensures x[i] < x[j] {
      UndiffRises(d, i, j);
    }
    DiffsOf(d, x);
    forall y | Diffs(y) == d ensures x == y {
      forall k | 0 <= k < |y| ensures y[k] == x[k] {
        DiffsDetermine(y, k);
      }
    }
  }

  lemma DiffsOf(d: seq<int>, x: seq<nat>)
    requires |x| == |d| && forall k :: 0 <= k < |d| ==> x[k] == Undiff(d, k)
    ensures Diffs(x) == d
  {
    forall k | 0 <= k < |d| ensures Diffs(x)[k] == d[k] {
      UndiffStep(d, k);
    }
  }

  // ----- the whole exchange -----

  /** Sends the transactions asked for; a position outside the block is an error. */
  method Respond(block: seq<Tx>, indexes: seq<nat>) returns (r: Option<seq<Tx>>)
    ensures r.Some? <==> forall i :: 0 <= i < |indexes| ==> indexes[i] < |block|
    ensures r.Some? ==> r.value == Picked(block, indexes)
  {
    var txn: seq<Tx> := [];
    var i := 0;
    while i < |indexes|
      invariant 0 <= i <= |indexes| == |txn| + (|indexes| - i)
      invariant forall k :: 0 <= k < i ==> indexes[k] < |block| && txn[k] == block[indexes[k]]
    {
      if indexes[i] >= |block| {
        return None;
      }
      txn := txn + [block[indexes[i]]];
      i := i + 1;
    }
    return Some(txn);
  }

  /** A block sent compactly, with the round trip for the missing transactions. When no pool entry clashes with a short id of the
      block, an accepted message always ends with exactly the block that was sent. */
  method Relay(shortId: ShortId, block: seq<Tx>, pool: Pool, extra: Pool, crowded: Crowding, checkOk: bool)
    returns (accepted: Status, status: Status, vtx: seq<Tx>)
    requires 0 < |block| <= MAX_INDEX && !block[0].isNull
    ensures accepted == if Assignable(Encoded(shortId, block).shortIds, crowded) then Ok else Failed
    ensures NoForeign(shortId, block, Offers(pool, false) + Offers(extra, true)) && accepted == Ok && checkOk ==>
              status == Ok && vtx == block
  {
    hide Free, PrefilledOk, Start, Matched, Represents, NoForeign, Diffs, Merged;
    var m := Encode(shortId, block);
    EncodedRepresents(shortId, block);
    EncodedOk(shortId, block);
    var receiver := new PartiallyDownloadedBlock(pool);
    ghost var seen, seenExtra;
    accepted, seen, seenExtra := receiver.InitData(shortId, m, extra, crowded);
    vtx := [];
    status := accepted;
    if accepted != Ok {
      return;
    }
    var av := receiver.available;
    ghost var offers := Looked(pool, seen, extra, seenExtra);
    SameSize(shortId, m, offers, block, av);
    var indexes := receiver.MissingIndexes();
    MissingInOrder(av);
    var wire := EncodeIndexes(indexes);
    var request := DecodeIndexes(wire);
    assert request == Some(indexes);
    var response := Respond(block, request.value);
    status, vtx := receiver.FillBlock(response.value, checkOk, true);
    if NoForeign(shortId, block, Offers(pool, false) + Offers(extra, true)) {
      LookedForeign(shortId, block, pool, seen, extra, seenExtra);
      MatchedAgrees(shortId, m, offers, block, av);
      MergedIsBlock(av, block, response.value, |av|);
      assert block[..|av|] == block;
    }
  }

  lemma EncodedOk(shortId: ShortId, block: seq<Tx>)
    requires 0 < |block| <= MAX_INDEX && !block[0].isNull
    ensures var m := Encoded(shortId, block); WireOk(m) && PrefilledOk(m) && !m.headerNull && m.prefilled != []
  {
    EncodedRepresents(shortId, block);
  }

  lemma LookedForeign(shortId: ShortId, block: seq<Tx>, pool: Pool, seen: nat, extra: Pool, seenExtra: nat)
    requires seen <= |pool| && seenExtra <= |extra| && NoForeign(shortId, block, Offers(pool, false) + Offers(extra, true))
    ensures NoForeign(shortId, block, Looked(pool, seen, extra, seenExtra))
  {
    var (all, some) := (Offers(pool, false) + Offers(extra, true), Looked(pool, seen, extra, seenExtra));
    forall j, p | 0 <= j < |some| && 0 <= p < |block| && shortId(some[j].hash) == shortId(block[p].witnessHash)
      ensures some[j].tx == block[p]
    {
      assert some[j] == all[if j < seen then j else |pool| + j - seen];
    }
  }

  lemma SameSize(shortId: ShortId, m: Message, offers: seq<Offer>, block: seq<Tx>, av: Slots)
    requires Represents(shortId, m, block) && Matched(shortId, m, offers, av)
    ensures |av| == |block|
  {
  }

  lemma MissingInOrder(av: Slots)
    requires |av| <= MAX_INDEX
    ensures Increasing(Free(av, |av|))
    ensures forall i :: 0 <= i < |Free(av, |av|)| ==> Free(av, |av|)[i] < |av|
  {
    hide Free;
    FreeSorted(av, |av|);
  }
}

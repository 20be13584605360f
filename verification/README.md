# Core data structures and protocols of unit-e, modelled in Dafny

A model of the parts of the unit-e node whose correctness rests on invariants over many steps. Each module follows one
component, in its own form: objects that update their fields are classes, loops are loops, in-place arithmetic works on
arrays, and the thread protocol is a state machine over its atomic actions. `dafny verify dfyconfig.toml` checks it all.

- `AddressManager` (AddrMan.dfy): the table of known peers, kept in five redundant structures. Every operation keeps the
  invariant behind the node's own consistency check, and after every run from a new manager that check returns zero.
- `AddressImage` (AddrManImage.dfy): saving and loading that table. Every manager in order survives the round trip with
  only its ids renumbered, and loading gives a manager in order exactly when no entry kept shares its address with another
  one read, so for every image in which no address is stored twice.
- `Coins` (Coins.dfy): stacks of caches over the set of unspent outputs. Every sequence of operations refines the same
  operations on a plain set; the FRESH and DIRTY flags are right exactly under stated conditions; the snapshot hash is off
  by exactly the sum over two named cases along the run.
- `CheckQueue` (CheckQueue.dfy): the master and its workers, under every interleaving and with spurious wakeups. No check
  is lost or done twice, every returned result is right, there is no deadlock, and a wait takes no more steps than a
  measure of the work says, plus two for each spurious wakeup.
- `Miner` (Miner.dfy): selection of transaction packages. Blocks stay closed under ancestors, in order, free of duplicates
  and under their limits; the incremental figures are determined exactly by the block and the earlier failures; when the
  candidates run out, nothing that fits is left but candidates misjudged in a way that is described exactly.
- `PartialMerkle` (PartialMerkle.dfy): partial merkle trees. What is built extracts to the same matches; whatever is
  received, an extraction with the right root lists only real transactions; exact sizes.
- `ArithUint256` (ArithUint256.dfy): big-integer arithmetic on limbs of any number, the compact target format and the work
  of a block.
- `CuckooCache` (CuckooCache.dfy): the signature cache with its packed flags, epochs and swap chains; every insert is
  exactly the prescribed chain of swaps, and a live element is lost only when that chain meets no discardable place.
- `Iblt` (Iblt.dfy): invertible Bloom lookup tables, their difference and their decoding. Decoding succeeds exactly when no
  part of the items is stuck, so the order of peeling does not matter.
- `RollingBloom` (RollingBloom.dfy): the rolling Bloom filter; lookups are characterised exactly by the recent history.
- `BlockTree` (BlockIndex.dfy): skip lists over the block tree, the active chain, forks and locators.
- `SkipHeights` (SkipHeights.dfy): how far skip links lead, and the exact maximum of links that a walk back follows, for
  heights of any number of binary digits.
- `CompactBlocks` (CompactBlocks.dfy): compact block relay from sender to receiver and back (BIP 152).
- `Base58` (Base58.dfy) and `Bech32` (Bech32.dfy): address text formats, with both round trips; for Bech32 also uniqueness
  of the checksum and detection of every error within six neighbouring symbols.
- `DependencyInjector` (DependencyInjector.dfy): topological sorting and the life cycle of components.
- `Numbers` and `Bytes`: arithmetic and bit lemmas shared by the others.

Hashes are function-valued parameters, clocks are arguments, and random draws and iteration orders of unordered containers
are arguments or arbitrary choices, so the statements hold for all of them. Machine integers are written out where their width matters.

The model follows the code where it differs from its documentation, or where it does less than one might expect:

- `SpendCoin` on an output that is already spent (src/coins.h:312-317 says "no effect") returns true again and moves the
  snapshot hash when the cache holds a spent entry: `Coins.SpendTwice`.
- `Clear` of the address manager (src/addrman.h:471-493) leaves the recorded collisions: `AddressManager.AddrMan.Clear`
  says when this matters, and `AddressManager.ClearedCollision` is a run in which it leads to an entry under the id -1.
- A partial merkle tree can have more than 2N-1 flag bits (src/merkleblock.h:47): `PartialMerkle.TooManyFlags` gives an
  instance and `PartialMerkle.BitBound` the exact condition. It can also take a byte or two more than the "hard guarantee"
  of 10 + ceil(32.25 N) (src/merkleblock.h:31-34): `PartialMerkle.OverTheLimit` and `PartialMerkle.SizeBound`.
- The first swap of a cuckoo insert goes to the second place of the element (src/cuckoocache.h:416-420 says the first):
  `CuckooCache.NextLoc`.
- A miner's candidate that failed and becomes a modified entry again starts from its cached figures
  (src/miner.cpp:343-348), which count ancestors already in the block, so it may be refused although it fits:
  `Miner.RefusedThoughFitting` is such a run, and `Miner.MisjudgedNeedsSlack` says what it takes. Package selection also
  relies on a mandatory set that is closed under ancestors, which is not checked: `Miner.ClosedExactly` and
  `Miner.OrphanedVoteIsModified`.
- The dependency injector initialises only components that have a dependency or a dependent, and after a failed
  initialisation stops and deletes nothing: `DependencyInjector.Lifecycle` and `DependencyInjector.LoneComponent`.
- Loading an address manager does not notice an address that is stored twice: `AddressImage.StoredTwice`.

## Model

| member | source | states |
|---|---|---|
| `AddressManager.AddrMan.constructor` | src/addrman.h:495-498 | A new manager meets the whole invariant: the five structures agree and are empty, and no id is used. |
| `AddressManager.AddrMan.Clear` | src/addrman.h:471-493 | Empties all five structures consistently, but keeps the recorded collisions: the manager is in order afterwards exactly when there were none. |
| `AddressManager.AddrMan.Find` | src/addrman.cpp:68-79 | Finds an entry exactly when the address index has one, and it is the entry of that address. |
| `AddressManager.AddrMan.Create` | src/addrman.cpp:81-91 | The new entry gets an unused id and takes part in every structure; only its table slot and the count are pending. |
| `AddressManager.AddrMan.SwapRandom` | src/addrman.cpp:93-111 | Exchanges two places of the random list; the list stays a permutation of the ids with `randomPos` as its inverse, and no other field changes. |
| `AddressManager.AddrMan.Delete` | src/addrman.cpp:113-125 | Removes an unreferenced entry from map, index, list and count together; all other entries keep everything but their random place. |
| `AddressManager.AddrMan.ClearNew` | src/addrman.cpp:127-140 | Frees a new slot: its occupant loses one reference, and with the last one its entry and address; nobody else is touched. |
| `AddressManager.AddrMan.DropFromBucket` | src/addrman.cpp:145-151 | Takes one entry out of one new bucket if it is there, keeping its reference count exact. |
| `AddressManager.AddrMan.RemoveFromNew` | src/addrman.cpp:144-154 | Takes an entry out of all its new slots; its reference count ends at zero because the count was exact. |
| `AddressManager.AddrMan.EvictToNew` | src/addrman.cpp:160-182 | Frees a tried slot: the occupant goes back to its home slot in the new table as its only reference, displacing at most one entry; nothing else changes. |
| `AddressManager.AddrMan.MakeTried` | src/addrman.cpp:142-188 | Moves an entry from all its new slots to its tried slot, evicting the occupant to the new table, with the full invariant restored. |
| `AddressManager.MadeTriedFacts` | src/addrman.cpp:142-188 | Over such a move at most one entry is lost, and only an untried one with a single reference; no peer data change, no other entry becomes tried, and only the occupant of the slot stops being tried. |
| `AddressManager.EvictedFacts` | src/addrman.cpp:158-182 | The same for the eviction alone: one tried entry at most goes back, and at most one untried entry with one reference disappears. |
| `AddressManager.MadeTriedCollisions` | src/addrman.cpp:142-188 | The move keeps every recorded collision facing an occupied slot. |
| `AddressManager.AddrMan.FindNewBucket` | src/addrman.cpp:219-234 | From any starting bucket the search ends in a bucket that holds the entry, so the bail-out branch is never taken. |
| `AddressManager.AddrMan.Good` | src/addrman.cpp:190-252 | Marking as good: unknown addresses change nothing; a tried one only updates its record; otherwise it moves to tried or, when asked to test first and the slot is occupied, is recorded as a collision unless ten are recorded. |
| `AddressManager.GoodTimes` | src/addrman.cpp:190-252 | Marking as good keeps the time conditions of the consistency check exactly when the time is positive, or zero for an entry that stays untried. |
| `AddressManager.GoodKeepsSlots` | src/addrman.cpp:190-252 | No tried slot that was filled becomes empty. |
| `AddressManager.AddrMan.UpdateKnown` | src/addrman.cpp:268-295 | A known address: its time and services are refreshed, and it gets another reference exactly with newer information, untried, below eight references and with a draw divisible by two to the number of its references. |
| `AddressManager.AddrMan.OverwriteSlot` | src/addrman.cpp:315-318 | The entry takes its slot from the previous occupant, which loses exactly that reference. |
| `AddressManager.AddrMan.EnterNewBucket` | src/addrman.cpp:303-323 | The entry enters its slot exactly when that is free or the occupant is terrible or has other slots while the entry has none; it disappears if it has no slot at all; the only other entry that can disappear is a terrible occupant without further slots. |
| `AddressManager.AddrMan.Add` | src/addrman.cpp:254-325 | Hearing about an address returns true exactly for a routable unknown one, keeps the invariant, forgets only terrible untried entries down to one slot, leaves all other peers alone, and stores or refreshes the entry with the penalized time. A new address is kept, under the next id, exactly when its slot is free or the occupant yields; a known one gets that slot exactly when, besides, it may have another reference. |
| `AddressManager.AddFacts` | src/addrman.cpp:254-325 | Puts the pieces of that effect together, and keeps recorded collisions and time conditions. |
| `AddressManager.AddedAddresses` | src/addrman.cpp:254-325 | No address other than the one heard becomes known, and known peers keep data and table. |
| `AddressManager.ForgottenAddresses` | src/addrman.cpp:309-323 | An address that is no longer known was terrible, untried and had one reference. |
| `AddressManager.NewcomerStays` | src/addrman.cpp:297-323 | An address heard for the first time stays exactly when its slot is free or the occupant yields, and then sits in that slot with one reference and the penalized time. |
| `AddressManager.KnownStays` | src/addrman.cpp:268-323 | A known address stays, with the refreshed record, and gets at most the slot for this source. |
| `AddressManager.AddrMan.Attempt` | src/addrman.cpp:327-347 | Records the attempt for exactly this address and port, and counts a failure only if none was counted since the last success anywhere. |
| `AddressManager.AddrMan.CheckEntries` | src/addrman.cpp:405-429 | The scan of the entries reports nothing exactly when every entry passes, and then has collected exactly the tried ids and the reference counts. |
| `AddressManager.AddrMan.CheckTriedTable` | src/addrman.cpp:436-448 | The scan of the tried table reports nothing and leaves nothing over exactly when the slots hold the tried entries, each in its own slot. |
| `AddressManager.AddrMan.CheckNewTable` | src/addrman.cpp:450-461 | The scan of the new table, by counting references down, reports nothing and leaves nothing over exactly when every slot is right and every reference count is the number of its slots. |
| `AddressManager.AddrMan.Check` | src/addrman.cpp:397-471 | The consistency check returns zero exactly when the stated conditions hold and the key is not null. |
| `AddressManager.ConsistentPassesCheck` | src/addrman.cpp:397-471 | The invariant that all operations keep implies that the check passes. |
| `AddressManager.PassingIsConsistent` | src/addrman.cpp:397-471 | Conversely, a passing check implies the invariant, for an index without stray entries and ids in range (which the check does not look at). |
| `AddressManager.AddrMan.DrawNext` | src/addrman.cpp:485-491 | One draw moves an arbitrary remaining entry to the front part and lists it unless it is terrible. |
| `AddressManager.AddrMan.GetAddr` | src/addrman.cpp:474-493 | Any draws give distinct known addresses that are not terrible, at most 2500 and at most 23 per cent of all, and all of them when the limit is not reached. |
| `AddressManager.DrawnAll` | src/addrman.cpp:474-493 | Drawing through the whole list misses no entry that is not terrible. |
| `AddressManager.DrawnDistinct` | src/addrman.cpp:474-493 | Drawn addresses are known, not terrible and pairwise different. |
| `AddressManager.AddrMan.Connected` | src/addrman.cpp:495-513 | Only a time more than twenty minutes old is updated, for exactly this address and port. |
| `AddressManager.AddrMan.SetServices` | src/addrman.cpp:515-531 | Only the services of exactly this address and port change. |
| `AddressManager.AddrMan.ResolveCollision` | src/addrman.cpp:540-585 | With the clock read up to four times: a collision is settled exactly when its entry is gone or invalid, or the occupant proved itself in the last four hours at the first reading, or had a failed attempt less than four hours ago at the second and more than a minute ago at the third; only in the last case does the newcomer take the slot, at the time of the fourth. |
| `AddressManager.ResolveStep` | src/addrman.cpp:565-573 | One more replacement keeps: who is tried succeeded meanwhile or is as before, and who is not as before was replaceable at the turn of some record. |
| `AddressManager.AddrMan.ResolveCollisions` | src/addrman.cpp:537-587 | For every clock, read anew for each record: the whole pass is the sequence of single resolutions in ascending order of ids. A record is dropped exactly when it is decided in the state and at the times its turn finds, and the state changes exactly by the newcomers that win. Filled tried slots stay filled; whoever stops being tried, or is tried again, had no success for four hours and a failed attempt at the turn of some record; if nobody wins at the outset nothing changes and the records dropped are those decided at the outset. |
| `AddressManager.AddrMan.SelectTriedCollision` | src/addrman.cpp:589-614 | Returns a tried entry in the slot of a recorded collision, or drops one stale record, or finds no record at all. If the slot of the record chosen is empty, which the invariant excludes, the lookup enters a null entry under the id -1. |
| `AddressManager.ResolvedQuietly` | src/addrman.cpp:537-587 | If nobody wins at the outset the pass changes nothing, and the records dropped are those decided at the outset. |
| `AddressManager.ClearedCollision` | src/addrman.h:471-493 | An instance of clearing with a recorded collision: two addresses compete for a tried slot, the manager is cleared and hears of the same two again. The consistency check finds nothing wrong, but looking up the competitor of the recorded entry reads the empty slot, enters a null entry under the id -1, and then the check fails. |
| `AddressImage.Collect` | src/addrman.h:329-348 | Writes out the untried or the tried entries in the order of their ids, with their places; the asserts that the counters are not exceeded hold. |
| `AddressImage.WriteRow` | src/addrman.h:349-362 | The places of one new bucket, by the index of the entry. |
| `AddressImage.Serialize` | src/addrman.h:316-363 | The image holds the stored part of every entry, each once, and the whole new table by indexes. |
| `AddressImage.LoadNew` | src/addrman.h:395-411 | One untried entry read: it joins map, index and list, and gets a reference from its own source where stored places cannot be used and its slot is free. |
| `AddressImage.LoadTried` | src/addrman.h:416-432 | One tried entry read: it takes its slot, or is lost exactly if that is taken. |
| `AddressImage.LoadPlace` | src/addrman.h:439-450 | One stored place is used exactly if it names an untried entry with fewer than eight references and its slot is free. |
| `AddressImage.Prune` | src/addrman.h:453-463 | Drops exactly the untried entries without a reference, each with what the address index has for its address. |
| `AddressImage.LoadedInOrder` | src/addrman.h:366-469 | What was read, without the entries dropped, is in order exactly when no entry that is kept shares its address with another one read. |
| `AddressImage.DifferentNoRivals` | src/addrman.h:394-451 | If no address occurs twice among the stored entries, no two entries read share an address, whatever the places and slots. |
| `AddressImage.Unserialize` | src/addrman.h:366-469 | For every image: loading fails exactly when the key has the wrong size or there are more entries than slots; otherwise the manager is what was read without the entries that found no place. It meets the whole invariant exactly when no kept entry shares its address with another one read, and so for every image in which no address is stored twice, whatever places it names and whatever slots collide. |
| `AddressImage.StoredTwice` | src/addrman.h:395-411 | Loading an image that holds any one entry twice succeeds and leaves a manager that is not in order. |
| `AddressImage.RoomForAll` | src/addrman.h:386-392 | A manager in order never has more entries than the limits of loading allow. |
| `AddressImage.ReadBack` | src/addrman.h:366-469 | Reading back what was stored gives the same manager with its entries renumbered: same data, roles, reference counts and slots. |
| `AddressImage.SaveAndLoad` | src/addrman.h:316-469 | Saving any manager in order and loading it again loses nothing: the copy is in order and knows the same addresses with the same stored data, tables, reference counts and slots. |
| `AddressManager.AddrMan.Execute` | src/addrman.h:526-638 | Every public operation keeps the invariant, never empties a filled tried slot and never changes the key. |
| `AddressManager.AddrMan.Run` | src/addrman.h:526-638 | The same for every sequence of operations with arbitrary arguments, hashes, clock values and random draws. |
| `AddressManager.RunFromFresh` | src/addrman.cpp:397-471 | After every run from a new manager with positive times and a non-null key, the consistency check returns zero. |
| `Coins.CoinsCache.constructor` | src/coins.cpp:39 | A new cache shows exactly what its base shows, and its hash is exact when that of the base is. |
| `Coins.CoinsDB.GetCoin` | src/txdb.cpp:62-64 | The database finds exactly the outputs it has. |
| `Coins.CoinsDB.BatchWrite` | src/txdb.cpp:85-145 | After a batch, written in any order, the database is its old contents overlaid with the dirty entries, spent ones removed. |
| `Coins.WriteStep` | src/txdb.cpp:108-127 | Writing one entry of the batch is one step of that overlay. |
| `Coins.CoinsCache.FetchCoin` | src/coins.cpp:45-60 | Fetching through any stack of caches changes no view: a miss is filled with a clean copy of what the base shows, and nothing else in the layer changes. |
| `Coins.FetchKeeps` | src/coins.cpp:45-60 | A clean copy keeps the layer in order and its view. |
| `Coins.CoinsCache.GetCoin` | src/coins.cpp:62-69 | Finds exactly the unspent outputs of the view, with their contents, and changes no view. |
| `Coins.CoinsCache.HaveCoin` | src/coins.cpp:139-142 | Tells exactly whether the view has the output. |
| `Coins.CoinsCache.AddCoin` | src/coins.cpp:71-99 | Refuses exactly a replacement of an unspent cached output that was not announced; otherwise the view gains the output, and the layer stays in order exactly when the overwrite was announced, the entry was cached, or the base has no such output. The hash drifts exactly by an uncached output that is overwritten. |
| `Coins.AddKeeps` | src/coins.cpp:71-99 | The same if-and-only-if for the layer: the FRESH flag set by an addition is right exactly under that condition, and the view gains the output in any case. |
| `Coins.AddSum` | src/coins.cpp:86-98 | How the sum of the view changes when an output is added or replaced. |
| `Coins.AddCoins` | src/coins.cpp:101-109 | Adds exactly the spendable outputs of a transaction to the view; with the check, or without earlier outputs, the hash stays exact. |
| `Coins.CoinsCache.SpendCoin` | src/coins.cpp:111-126 | Removes exactly the output from the view and returns it; a FRESH entry vanishes, any other leaves a dirty spent mark wherever the base still has the output. The hash drifts exactly when an entry already spent is spent again. |
| `Coins.SpendKeeps` | src/coins.cpp:118-124 | Spending keeps the layer in order and removes exactly that output from the view. |
| `Coins.SpendTwice` | src/coins.h:312-317 | A second spend of an output that the base has returns true again and moves the hash, although the documentation says it has no effect. |
| `Coins.CoinsCache.BatchWrite` | src/coins.cpp:163-220 | A batch without misapplied FRESH flags is absorbed without an exception: the view becomes the old one overlaid with the dirty entries, in any order, over the same base. |
| `Coins.CoinsCache.AbsorbEntry` | src/coins.cpp:169-215 | Throws exactly for a FRESH entry over an unspent cached one, and otherwise merges the entry, keeping the memory count exact. |
| `Coins.AbsorbStep` | src/coins.cpp:169-215 | Merging an entry into a parent keeps the flags of the parent right and writes exactly that entry to its view. |
| `Coins.LayerGivesFresh` | src/coins.cpp:222-227 | A cache in order never sends a misapplied FRESH flag, and its dirty entries alone give its whole view. |
| `Coins.CoinsCache.Flush` | src/coins.cpp:222-227 | Flushing never fails, empties the cache and changes no view: the base now shows what the cache showed, at every depth of the stack. |
| `Coins.CoinsCache.Uncache` | src/coins.cpp:229-236 | Dropping an unmodified entry changes no view. |
| `Coins.UncacheKeeps` | src/coins.cpp:229-236 | A clean entry can be dropped from a layer without changing its view. |
| `Coins.MemoryAfter` | src/coins.cpp:71-126 | How the memory counter changes with one entry; every operation keeps it the exact sum. |
| `Coins.Execute` | src/coins.cpp:45-236 | Each operation refines the same operation on a plain set of outputs, for any stack of caches; which outputs are cached follows a traced layer exactly; and the snapshot hash moves off exactly by an uncached output that is overwritten or an entry spent again. |
| `Coins.Run` | src/coins.cpp:45-236 | So does every sequence of operations, and the snapshot hash is off by exactly the sum of these movements along the traced layers. It stays exact if no step overwrites an unspent output that is not cached at that moment or spends a spent entry. |
| `Coins.ProperMovesNothing` | src/coins.cpp:71-126 | Steps that overwrite no uncached unspent output and spend no spent entry never move the snapshot hash. |
| `Coins.ProperFlushes` | src/coins.cpp:222-227 | And every flush among them passes on an exact hash. |
| `CheckQueue.BatchCount` | src/checkqueue.h:102-107 | A batch has at least one check, no more than are queued and no more than the limit (but one). |
| `CheckQueue.Taken` | src/checkqueue.h:109-114 | Taking from the back moves checks to the batch, losing and duplicating none. |
| `CheckQueue.InitInv` | src/checkqueue.h:131 | The invariant holds before anything happened. |
| `CheckQueue.AddKeeps` | src/checkqueue.h:146-158 | Adding checks, with whichever worker is woken, keeps it. |
| `CheckQueue.ExecuteKeeps` | src/checkqueue.h:119-121 | Executing one check, or skipping it after a failure, keeps it. |
| `CheckQueue.ReportKeeps` | src/checkqueue.h:77-86 | Reporting a finished batch keeps it, wakes the master with the last check, and counts a thread on its first round. |
| `CheckQueue.SettleReturns` | src/checkqueue.h:89-96 | The master returns with nothing outstanding, and the reset gives a fresh round. |
| `CheckQueue.SettleKeeps` | src/checkqueue.h:88-117 | Returning, going to sleep or taking a batch keeps the invariant. |
| `CheckQueue.StepKeeps` | src/checkqueue.h:66-158 | Every atomic action of every thread, spurious wakeups included, keeps the invariant. |
| `CheckQueue.RunKeeps` | src/checkqueue.h:66-158 | So does every interleaving of any length. |
| `CheckQueue.EveryRun` | src/checkqueue.h:66-158 | In every reachable state, for any number of workers: what was added is queued, held by a thread or finished; the counter is the number not finished; the master sleeps only while checks are outstanding; and every returned result is right. |
| `CheckQueue.ReturnRight` | src/checkqueue.h:139-143 | A returned true means that every check added succeeded, and a returned false that one failed. |
| `CheckQueue.WorkGoesDown` | src/checkqueue.h:66-158 | While the master waits, every action except a spurious wakeup lowers a measure or ends the wait. |
| `CheckQueue.SomeoneCanGoOn` | src/checkqueue.h:66-158 | While the master waits, some thread can take a step that is not a spurious wakeup: no deadlock and no lost notification. |
| `CheckQueue.WaitEnds` | src/checkqueue.h:66-158 | So in every schedule that keeps the master waiting, the steps other than spurious wakeups are at most the measure and one more for each spurious wakeup; and some step other than a spurious wakeup is always possible. |
| `CheckQueue.SpuriousWork` | src/checkqueue.h:98-100 | A spurious wakeup adds exactly one to the measure. |
| `Miner.AncestorCount` | src/miner.h:76-88 | The number of ancestors grows strictly along every dependency, which is why sorting by it is enough. |
| `Miner.PackageCloses` | src/miner.cpp:486-492 | A transaction with its missing ancestors completes a closed block to a closed one. |
| `Miner.UntouchedExact` | src/miner.cpp:453-455 | The cached figures of a candidate are what the bookkeeping has for it as long as none of its ancestors entered the block before its last failure; they are the sums over its package if it never failed. |
| `Miner.CachedAtLeast` | src/miner.cpp:453-455 | Cached figures are never below those of the bookkeeping, and these never below those of the package. |
| `Miner.FiguresStep` | src/miner.h:109-121 | Moving ancestors into the block lowers the figures of the bookkeeping by exactly theirs. |
| `Miner.TakeOffStep` | src/miner.cpp:334-353 | Updating the descendants of one more added transaction gives the entries lowered by all added so far. |
| `Miner.UpdateDescendants` | src/miner.cpp:336-352 | Visiting the descendants in any order takes the figures off each exactly once. |
| `Miner.UpdatePackagesForAdded` | src/miner.cpp:330-355 | After a package was added, every descendant outside it has an entry lowered by exactly its added ancestors, starting from its old entry or from its cached figures, and no other entry changes. |
| `Miner.BooksAdded` | src/miner.cpp:330-355 | Taking a package keeps the modified entries exactly those determined by the block and the failures: descendants of the block outside it, with figures that count what was in the block at their last failure. |
| `Miner.BooksFail` | src/miner.cpp:467-474 | So does putting a candidate aside. |
| `Miner.SortForBlock` | src/miner.cpp:372-381 | Lists exactly the package, each once, by ancestor count. |
| `Miner.PackageInOrder` | src/miner.cpp:372-381 | Appending the sorted package keeps every transaction after its ancestors. |
| `Miner.PackageFits` | src/miner.cpp:290-298 | Figures that are not too low bound the real weight and signature operations of the package. |
| `Miner.BlockAssembler.constructor` | src/miner.cpp:86-97 | An empty block with the reserved weight and signature operations is counted right. |
| `Miner.BlockAssembler.AddToBlock` | src/miner.cpp:311-328 | Weight and signature operations stay the reserve plus the sums over the block, without duplicates. |
| `Miner.BlockAssembler.AddMandatoryTxs` | src/miner.cpp:245-275 | The block then holds exactly the mandatory transactions of the pool. |
| `Miner.BlockAssembler.AddAll` | src/miner.cpp:510-514 | Appends the sorted package and drops its members from the modified candidates. |
| `Miner.BlockAssembler.TakePackage` | src/miner.cpp:486-519 | Taking a package that passes the size test keeps the block closed, in order, counted and strictly under both limits, with the modified entries exactly those determined by the block and the failures. |
| `Miner.BlockAssembler.Consider` | src/miner.cpp:467-519 | A package is taken exactly when it passes the size test and is final; otherwise the block is unchanged, a modified candidate is put aside and its failure recorded; the run of failures and the decision to give up are exact. |
| `Miner.BlockAssembler.NextCandidate` | src/miner.cpp:416-460 | A candidate is never in the block; its figures are exactly those of the bookkeeping for its last failure, so they are those of its package unless it failed before. |
| `Miner.SettledTake` | src/miner.cpp:486-519 | Taking a package leaves everything passed over in the block, waiting, unfit, or misjudged. |
| `Miner.HistoryFail` | src/miner.cpp:467-519 | A refused modified candidate does not fit, or it was misjudged: it was refused before, with ancestors in the block that its figures still count. |
| `Miner.FittingNeedsSlack` | src/miner.cpp:290-298 | A package that did not fit can fit in a larger block only if some ancestor that entered the block meanwhile weighs less than is reckoned for it. |
| `Miner.MisjudgedNeedsSlack` | src/miner.cpp:343-348 | So whoever is misjudged has two ancestors in the block, one of which is such an ancestor and entered during the selection. |
| `Miner.NothingLeft` | src/miner.cpp:393-521 | When the candidates run out, each one left that fits has two ancestors in the block, one of which weighs less than reckoned and entered during the selection; so nothing that fits is left where no transaction weighs less than reckoned. |
| `Miner.BlockAssembler.TryCandidate` | src/miner.cpp:416-519 | One round keeps: the modified entries are determined by the block and the failures, and everything passed over is in the block, waiting, unfit or misjudged. What is taken stays strictly under both limits, what is refused changes nothing else, and giving up takes a long run of failures and a nearly full block. |
| `Miner.BlockAssembler.Round` | src/miner.cpp:398-519 | One pass of the loop, stopped by the fee policy or not, makes progress and keeps the account of what was passed over. |
| `Miner.BlockAssembler.Select` | src/miner.cpp:393-521 | The loop ends, and its ending is one of the three, each with its cause. |
| `Miner.BlockAssembler.AddPackageTxs` | src/miner.cpp:393-521 | From a closed block, for every order of candidates and every candidate at which the fee policy stops: the block stays closed, without duplicates, ancestors first, all additions final and strictly under the limits; it ends. It stops for the policy only at that candidate, gives up only in a nearly full block with more than a thousand candidates whose cached figures do not fit, and otherwise each candidate left out does not fit, or was misjudged: once it did not fit, later it failed again, then an ancestor entered the block, and it was refused on figures that still count its ancestors in the block at that failure, although it fitted by then. So each candidate left that fits has two ancestors in the block, one of which weighs less than is reckoned for it and was added by the selection. |
| `Miner.RefusedThoughFitting` | src/miner.cpp:343-348 | A run on a pool of three in which a candidate that fits is refused: it failed before, an ancestor lighter than reckoned entered the block, and its figures start again from the cached ones. |
| `Miner.ReentersBooks` | src/miner.cpp:330-355 | A transaction becomes a modified entry exactly when it descends from what is added, also one that is in the block. |
| `Miner.ClosedExactly` | src/miner.cpp:245-275 | The block is closed under ancestors exactly when, whatever is added outside it, none of its transactions becomes a candidate again. |
| `Miner.OrphanedVoteIsModified` | src/miner.cpp:245-275 | An instance: with a vote in the block whose parent is not, adding the parent makes the vote a candidate again. |
| `PartialMerkle.InWidth` | src/merkleblock.h:66-68 | A position exists at a height exactly when its first leaf does. |
| `PartialMerkle.HeightFrom` | src/merkleblock.cpp:121-124 | The search for the height ends, at the first height with at most one node. |
| `PartialMerkle.TreeHeight` | src/merkleblock.cpp:146-149 | The loop computes that height. |
| `PartialMerkle.Height` | src/merkleblock.cpp:121-124 | There a nonempty tree has exactly one node, and below more. |
| `PartialMerkle.PartialMerkleTree.Build` | src/merkleblock.cpp:116-128 | The tree is stored as the flags and hashes of the depth-first traversal. |
| `PartialMerkle.PartialMerkleTree.TraverseAndBuild` | src/merkleblock.cpp:60-76 | The traversal appends exactly the flags and hashes of its subtree. |
| `PartialMerkle.PartialMerkleTree.ComputeParentOfMatch` | src/merkleblock.cpp:61-64 | The loop finds out whether a matched leaf lies below the node. |
| `PartialMerkle.PartialMerkleTree.TraverseAndExtract` | src/merkleblock.cpp:78-114 | Reading consumes flags and hashes as the recursive description says, collects matches and indices, and notes malformed data. |
| `PartialMerkle.PartialMerkleTree.ExtractMatches` | src/merkleblock.cpp:132-163 | Returns the root, or zero for every malformed or oversized input, with the matches read. |
| `PartialMerkle.PartialMerkleTree.Receive` | src/merkleblock.h:88-105 | A tree taken from the wire, with no error noted yet. |
| `PartialMerkle.ExtractSound` | src/merkleblock.cpp:78-114 | For arbitrary flags and hashes: a subtree that reads to the real hash without error yields only real leaves at their real positions, for a collision-free hash. |
| `PartialMerkle.ProofIsSound` | src/merkleblock.cpp:132-163 | Whatever the sender wrote, an extraction that returns the block root lists only transactions of that block, at their positions. |
| `PartialMerkle.FirstLeaf` | src/merkleblock.cpp:103-107 | Two nodes of one height with the same hash have the same first leaf. |
| `PartialMerkle.SiblingsDiffer` | src/merkleblock.cpp:103-107 | With distinct transactions two siblings never have the same hash, so an honest tree is never taken for a malformed one. |
| `PartialMerkle.RoundTrip` | src/merkleblock.cpp:60-114 | Reading what was built gives the node hash and exactly the matched leaves, and consumes exactly what was written. |
| `PartialMerkle.BuiltExtracts` | src/merkleblock.cpp:116-163 | Extraction from a built tree, padding included, returns the root and exactly the matches, up to the limit on transactions and never beyond it. |
| `PartialMerkle.SendAndExtract` | src/merkleblock.cpp:116-163 | The same end to end: built, packed into bytes, unpacked and extracted. |
| `PartialMerkle.HashPerLeaf` | src/merkleblock.h:36-39 | A subtree stores at least one hash and at most one per leaf. |
| `PartialMerkle.HashPerPath` | src/merkleblock.h:36-40 | It stores at most one hash more than its height times its matches. |
| `PartialMerkle.HashBound` | src/merkleblock.h:36-40 | Both documented bounds on the number of hashes. |
| `PartialMerkle.BitCount` | src/merkleblock.h:47 | The exact number of flags: twice the hashes less one, plus the lone children. |
| `PartialMerkle.LoneOnEdge` | src/merkleblock.cpp:72-74 | The right edge contributes no lone child exactly when no matched node on it has a single child. |
| `PartialMerkle.LoneAtMost` | src/merkleblock.cpp:72-74 | There is at most one lone child per level. |
| `PartialMerkle.BitBound` | src/merkleblock.h:47 | The documented bound on the number of flags holds exactly when no matched node on the right edge has a lone child; otherwise it is exceeded by at most the height. |
| `PartialMerkle.TooManyFlags` | src/merkleblock.h:47 | Three transactions with the last one matched exceed the documented bound. |
| `PartialMerkle.LoneIsEdges` | src/merkleblock.h:47 | The flags beyond 2N-1 are as many as the levels whose last node has a lone child and a match below it. |
| `PartialMerkle.SizeBound` | src/merkleblock.h:31-48 | For every tree a block can have, the documented limit of 10 + ceil(32.25 N) bytes holds exactly unless the flags take 253 bytes or more and those levels are more than 1, 3, 5 or 7, by the remainder of N; it is never passed by more than two bytes. |
| `PartialMerkle.OverTheLimit` | src/merkleblock.h:34 | With all of 1025 transactions matched the documented limit is passed. |
| `PartialMerkle.Pack` | src/merkleblock.h:100-102 | Flags are packed eight to a byte, lowest bit first, padded with zeroes. |
| `PartialMerkle.Unpack` | src/merkleblock.h:95-97 | Unpacking gives every bit of every byte. |
| `PartialMerkle.Repack` | src/merkleblock.h:88-105 | Packing and unpacking gives the flags back, followed by fewer than eight zeroes. |
| `ArithUint256.Complement` | src/arith_uint256.h:67-73 | The complement is the largest value less the number, for every width. |
| `ArithUint256.Negate` | src/arith_uint256.h:75-82 | Negation is exact modulo the range. |
| `ArithUint256.SetWord` | src/arith_uint256.h:86-93 | Assigning a 64-bit number sets the value. |
| `ArithUint256.FromWord` | src/arith_uint256.h:55-63 | A 64-bit number becomes that value. |
| `ArithUint256.AddAssign` | src/arith_uint256.h:133-143 | Addition with carry is exact modulo the range, also onto itself. |
| `ArithUint256.SubAssign` | src/arith_uint256.h:145-149 | Subtraction is exact modulo the range, also from itself. |
| `ArithUint256.Increment` | src/arith_uint256.h:171-178 | Rippling through full limbs adds one modulo the range. |
| `ArithUint256.Decrement` | src/arith_uint256.h:188-195 | Rippling through empty limbs subtracts one modulo the range. |
| `ArithUint256.GetLow64` | src/arith_uint256.h:243-247 | The two low limbs are the remainder modulo two to the 64. |
| `ArithUint256.ShlAssign` | src/arith_uint256.cpp:23-38 | Shifting left by any amount multiplies by the power of two modulo the range. |
| `ArithUint256.ShrAssign` | src/arith_uint256.cpp:40-55 | Shifting right by any amount divides by the power of two. |
| `ArithUint256.MulWord` | src/arith_uint256.cpp:57-67 | Multiplication by a word is exact modulo the range. |
| `ArithUint256.MulRow` | src/arith_uint256.cpp:75-79 | One row of the long multiplication adds its partial product, with the carry that is dropped. |
| `ArithUint256.MulAssign` | src/arith_uint256.cpp:69-83 | Long multiplication is exact modulo the range, also by itself. |
| `ArithUint256.DivAssign` | src/arith_uint256.cpp:85-109 | Division fails exactly for zero, and otherwise gives the quotient; no step overflows. |
| `ArithUint256.DivRound` | src/arith_uint256.cpp:99-106 | One round of shift and subtract keeps quotient times divisor plus rest, with the rest below twice the shifted divisor. |
| `ArithUint256.CompareTo` | src/arith_uint256.cpp:111-121 | Comparison by limbs is comparison of the numbers. |
| `ArithUint256.EqualTo` | src/arith_uint256.cpp:123-135 | Equality with a 64-bit number is equality of the numbers. |
| `ArithUint256.Bits` | src/arith_uint256.cpp:173-186 | The position above the highest bit set. |
| `ArithUint256.SetCompact` | src/arith_uint256.cpp:206-224 | Decodes any compact word to its number modulo two to the 256; the flags say exactly when it is negative and when it does not fit. |
| `ArithUint256.OverflowExact` | src/arith_uint256.cpp:219-222 | The three-way test on size and mantissa is exactly the overflow of 256 bits. |
| `ArithUint256.GetCompact` | src/arith_uint256.cpp:226-247 | The encoding stands for the largest encodable number that is not above the value, is the least word that does so, and has the sign exactly for a negative nonzero value; both asserts of the source hold. |
| `ArithUint256.Largest` | src/arith_uint256.cpp:226-241 | No mantissa and size stand for a number between the one chosen and the value. |
| `ArithUint256.Shortest` | src/arith_uint256.cpp:226-241 | No shorter size and no lesser mantissa stand for the number chosen. |
| `ArithUint256.GetBlockProof` | src/chain.cpp:121-134 | The work of a block is two to the 256 divided by target plus one, rounded down, and zero exactly for a negative, zero or oversized target. |
| `ArithUint256.ProofQuotient` | src/chain.cpp:129-133 | The rewriting that avoids the number too large for the type gives the same quotient, and it fits. |
| `ArithUint256.TargetBelowTop` | src/chain.cpp:133 | Target plus one does not wrap around. |
| `CuckooCache.BitPackedFlags.constructor` | src/cuckoocache.h:61-68 | All flags are set at first, padding included. |
| `CuckooCache.BitPackedFlags.MarkSet` | src/cuckoocache.h:92-95 | Sets exactly this flag. |
| `CuckooCache.BitPackedFlags.MarkUnset` | src/cuckoocache.h:103-106 | Clears exactly this flag. |
| `CuckooCache.BitPackedFlags.Marked` | src/cuckoocache.h:113-116 | Reads exactly this flag. |
| `CuckooCache.Loc` | src/cuckoocache.h:243-253 | Scaling a 32-bit hash gives a place in the table. |
| `CuckooCache.Locs` | src/cuckoocache.h:243-253 | Eight places, all inside the table. |
| `CuckooCache.NextLoc` | src/cuckoocache.h:416-430 | The place after the one last used, wrapping around; for the first swap the second place, although the comment says the first. |
| `CuckooCache.Cache.Setup` | src/cuckoocache.h:340-353 | At least two slots, 45 per cent of them an epoch, and nothing live. |
| `CuckooCache.Cache.AllowErase` | src/cuckoocache.h:266-269 | Makes exactly one entry discardable. |
| `CuckooCache.Cache.PleaseKeep` | src/cuckoocache.h:275-278 | Keeps exactly one entry. |
| `CuckooCache.Cache.CountRecent` | src/cuckoocache.h:297-300 | Counts the live entries of the current epoch. |
| `CuckooCache.Cache.AgeAll` | src/cuckoocache.h:306-310 | Old entries become discardable and current ones old. |
| `CuckooCache.AgedKeeps` | src/cuckoocache.h:306-310 | Ageing keeps places and uniqueness and empties the current epoch. |
| `CuckooCache.Cache.EpochCheck` | src/cuckoocache.h:289-321 | Ages exactly when the counter has run out and the epoch is full, and resets the counter so that live entries of the current epoch stay bounded until the next scan. |
| `CuckooCache.CheckedFound` | src/cuckoocache.h:289-321 | The check changes nothing about which elements are found. |
| `CuckooCache.Cache.FindElement` | src/cuckoocache.h:400-405 | Finds the element at one of its places, or it is at none. |
| `CuckooCache.Cache.FindCollected` | src/cuckoocache.h:408-410 | Finds the first discardable place, or there is none. |
| `CuckooCache.Cache.Fill` | src/cuckoocache.h:411-413 | Puts an element at a place, live and with its epoch. |
| `CuckooCache.Cache.Exchange` | src/cuckoocache.h:430-438 | Exchanges the element in hand with the one at a place, epochs included. |
| `CuckooCache.SwapKeeps` | src/cuckoocache.h:430-438 | A swap keeps places, uniqueness, the elements kept so far and the count of the current epoch. |
| `CuckooCache.SearchFound` | src/cuckoocache.h:400-406 | An element at one of its places is refreshed and nothing is dropped. |
| `CuckooCache.SearchEnds` | src/cuckoocache.h:407-415 | The chain ends at the first discardable place it meets within the limit. |
| `CuckooCache.SearchGivesUp` | src/cuckoocache.h:416-439 | If it meets none, the element in hand after the last swap is dropped. |
| `CuckooCache.Cache.Chase` | src/cuckoocache.h:407-439 | The loop of swaps does exactly that. |
| `CuckooCache.KeptSwap` | src/cuckoocache.h:430-438 | Exchanging with an entry loses nothing: the evicted element is in hand with its epoch. |
| `CuckooCache.KeptPut` | src/cuckoocache.h:411-414 | Filling a discardable place ends the chain with everything live kept. |
| `CuckooCache.PutKeeps` | src/cuckoocache.h:430-438 | Elements stay at their own places and no element is there twice. |
| `CuckooCache.NotFoundAbsent` | src/cuckoocache.h:398-405 | An element at none of its places is nowhere in the table. |
| `CuckooCache.RecentPut` | src/cuckoocache.h:411-435 | How one write changes the number of live entries of the current epoch. |
| `CuckooCache.Cache.Place` | src/cuckoocache.h:395-440 | The chain of swaps is exactly the one prescribed: an element found at one of its places is refreshed there; otherwise the first discardable place met within the depth limit is filled and its old element dropped; and only if none is met, the element then in hand is dropped. |
| `CuckooCache.Cache.Insert` | src/cuckoocache.h:392-440 | After an insert the new element and all found before are found, except one at most; live elements stay live with their epoch unless the search met no discardable place in as many swaps as the limit allows; the resulting table and the element dropped are exactly those of the prescribed chain of swaps; the epoch bound holds. |
| `CuckooCache.Cache.Contains` | src/cuckoocache.h:467-477 | Exact; with erase it makes that entry discardable, so a live copy is gone, but changes nothing about what is found. |
| `CuckooCache.EraseKeeps` | src/cuckoocache.h:467-477 | Erasing hides no element and takes the life of that one only. |
| `CuckooCache.LiveIsFound` | src/cuckoocache.h:467-477 | Whatever is live is found. |
| `CuckooCache.Run` | src/cuckoocache.h:392-477 | After every sequence of inserts and lookups, live elements are found and the current epoch is within its bound. |
| `CuckooCache.InsertEraseContains` | src/cuckoocache.h:445-456 | The documented sequence of insert, erase and lookup always gives true. |
| `Iblt.XorLaws` | src/iblt.h:320-321 | Exclusive-or is commutative, and every number is its own inverse. |
| `Iblt.XorAssoc` | src/iblt.h:320-321 | It is associative. |
| `Iblt.AddValue` | src/iblt.h:258-270 | Values are added bytewise, the shorter sum padded with zeroes. |
| `Iblt.SumRemove` | src/iblt.h:301-328 | The contents of a cell are the sum of the contributions of its keys, in whatever order they came. |
| `Iblt.Untouched` | src/iblt.h:254-256 | A cell that no key goes into sums to nothing. |
| `Iblt.Table.constructor` | src/iblt.h:45-48 | An empty table stands for no items. |
| `Iblt.Table.Copy` | src/iblt.h:95 | A copy has the same cells. |
| `Iblt.Table.Update` | src/iblt.h:301-328 | Changes exactly the cells of the key, one in each partition, by its contribution. |
| `Iblt.UpdateAdds` | src/iblt.h:301-328 | So a table for some items becomes one for those and the new one. |
| `Iblt.UpdateRemoves` | src/iblt.h:301-328 | And the opposite contribution takes an item out, clearing value sums of empty cells. |
| `Iblt.UpdateSigned` | src/iblt.h:301-328 | So a signed item added to the cells enters the items or cancels its opposite. |
| `Iblt.InsertedRight` | src/iblt.h:254-256 | In a table of inserted items no cell in use looks empty. |
| `Iblt.Table.Insert` | src/iblt.h:50-52 | Adds exactly the contribution of the item to its cells. The table then stands for the items and the new one, or without it if its erasure was among them, where no cell of the result misleads the emptiness test; none does if all items were inserted. |
| `Iblt.Table.Erase` | src/iblt.h:54-56 | Adds exactly the opposite contribution. The table then stands for the items without this one, as if it had never been inserted, or with its erasure if it was not in, where no cell of the result misleads the emptiness test. |
| `Iblt.SubtractCell` | src/iblt.h:169-180 | Subtracting cells gives the cell of the signed difference. |
| `Iblt.SumDifference` | src/iblt.h:163-183 | Sums of the difference are the differences of sums, for sets that agree on shared keys. |
| `Iblt.SubtractTable` | src/iblt.h:163-183 | Cell by cell, the difference of the tables is the table of the difference. |
| `Iblt.Table.Subtract` | src/iblt.h:163-183 | The difference of two tables stands for the signed difference of their items. |
| `Iblt.PureCell` | src/iblt.h:246-252 | A cell that looks pure holds one key, whose key, sign and value can be read off. |
| `Iblt.PeelsPart` | src/iblt.h:132-150 | Whatever is reached by peeling is a part of the items. |
| `Iblt.UnsharedIsFaithful` | src/iblt.h:246-256 | Items that share no cell of the table are read right whatever their check hashes are. |
| `Iblt.FirstPartition` | src/iblt.h:154-158 | Looking at the first partition is enough to know that nothing is left. |
| `Iblt.Table.Peel` | src/iblt.h:143-147 | Peeling a pure cell takes exactly its item out of the whole table. |
| `Iblt.IsStuck` | src/iblt.h:132-150 | Without a pure cell, no item left is alone in a cell. |
| `Iblt.PeelHoldsStuck` | src/iblt.h:137-148 | Peeling never removes an item of a part in which nobody is alone in a cell. |
| `Iblt.Table.PeelRound` | src/iblt.h:134-149 | One pass lists exactly what it peels, and a pass that peels nothing leaves nothing to peel. |
| `Iblt.Table.ListEntries` | src/iblt.h:128-160 | Decoding ends; what it lists are items with their values, by sign; it returns true exactly when they are all; what is left is the largest part that cannot be peeled, so the outcome does not depend on the order. |
| `Iblt.Table.PeelFor` | src/iblt.h:97-112 | A pass that looks for a key finds its value or peels on without losing it. |
| `Iblt.Table.Get` | src/iblt.h:64-119 | A true answer is right, found or not found; a false one means that nothing more can be peeled and every cell of the key is in use. |
| `Iblt.CountsAll` | src/iblt.h:194-203 | The counts of all cells add up to the items times the partitions. |
| `Iblt.Table.Size` | src/iblt.h:194-203 | The size of a table of inserted items is their number. |
| `Iblt.Build` | src/iblt.h:50-52 | Inserting a set, in any order, gives a table that stands for it. |
| `Iblt.Reconcile` | src/iblt.h:128-183 | Two sets from their tables: true exactly when the difference has no part in which nobody is alone in a cell, and then exactly the keys and values that each has and the other has not; never a wrong entry. |
| `RollingBloom.FastMod` | src/bloom.cpp:289-291 | The product shifted down is a place in the table. |
| `RollingBloom.LabelSet` | src/bloom.cpp:315-321 | Writing the two words changes the generation of one position and no other. |
| `RollingBloom.LabelWiped` | src/bloom.cpp:305-308 | The mask clears exactly the positions of the given generation. |
| `RollingBloom.WipeStep` | src/bloom.cpp:304-309 | One pair of words wiped. |
| `RollingBloom.NewGeneration` | src/bloom.cpp:295-310 | Starting a generation keeps every label right: positions last touched in this or the two previous generations carry their generation, all others none. |
| `RollingBloom.KeyAdded` | src/bloom.cpp:311-321 | Adding a key keeps every label right. |
| `RollingBloom.LabelledIsRecent` | src/bloom.cpp:336-339 | A position is set exactly when one of the recent keys touched it. |
| `RollingBloom.RecentIsHeld` | src/bloom.cpp:330-342 | A key of the last three generations is found. |
| `RollingBloom.LastKeysHeld` | src/bloom.h:121-122 | Each of the last two full generations of keys is found at any moment. |
| `RollingBloom.RollingBloomFilter.constructor` | src/bloom.cpp:253-278 | Two generations together hold at least the promised number of keys. |
| `RollingBloom.RollingBloomFilter.Reset` | src/bloom.cpp:350-358 | Forgets all keys. |
| `RollingBloom.RollingBloomFilter.WipeGeneration` | src/bloom.cpp:301-309 | Clears exactly the positions of the generation that starts again. |
| `RollingBloom.RollingBloomFilter.Insert` | src/bloom.cpp:293-322 | Keeps every label right for the history with the new key, across any number of generations. |
| `RollingBloom.RollingBloomFilter.Contains` | src/bloom.cpp:330-342 | True exactly when every position of the key was touched by some recent key; in particular never false for one of the last keys. |
| `RollingBloom.InsertAllThenLookUp` | src/bloom.h:121-122 | After any history, each of the last promised number of keys is found. |
| `SkipHeights.InvertLowestOne` | src/chain.cpp:70 | Clearing the lowest one bit makes a positive number smaller. |
| `SkipHeights.SkipHeight` | src/chain.cpp:73-81 | The jump goes strictly down. |
| `SkipHeights.OddNext` | src/chain.cpp:92-106 | From an odd height the walk follows the skip link exactly if that does not lead below the target. |
| `SkipHeights.EvenSkip` | src/chain.cpp:92-106 | From an even height it follows the skip link to a near target. |
| `SkipHeights.Descent` | src/chain.cpp:91-106 | From a multiple of two to the power of k to a target less than that below, the walk follows at most as many links as the cost of k. |
| `SkipHeights.OddRun` | src/chain.cpp:91-106 | On the way it runs over odd heights two bits at a time. |
| `SkipHeights.CostClosed` | src/chain.cpp:77-79 | The cost of k is (k*k + 6k - 3) / 4, rounded down. |
| `SkipHeights.StepBound` | src/chain.cpp:77-79 | No walk from a height up to two to the power of n follows more links than the cost of n-1 plus the larger of n-5 and half of n+1. |
| `SkipHeights.Attained` | src/chain.cpp:77-79 | For every n some walk follows exactly that many, so the bound is the maximum. |
| `SkipHeights.DocumentedBound` | src/chain.cpp:77-79 | Going back from heights up to 2**18 takes at most 110 links, as documented. |
| `BlockTree.BlockIndex.constructor` | src/chain.cpp:115-119 | A new block extends its parent by one. |
| `BlockTree.BlockIndex.GetAncestor` | src/chain.cpp:83-108 | The walk over skip and parent links ends at exactly the ancestor of that height, or null outside the range; the source assert holds. With all skip links set it follows exactly the links of the walk over heights, and no more than the bound for its height. |
| `BlockTree.BlockIndex.BuildSkip` | src/chain.cpp:115-119 | The skip link is the ancestor at the skip height. |
| `BlockTree.OnPath` | src/chain.cpp:83-108 | Every block on the path has its index as height and the prefix as path. |
| `BlockTree.BackIsPath` | src/chain.cpp:89-106 | Following parent links n times is the block n places down the path. |
| `BlockTree.NewBlock` | src/chain.cpp:115-119 | Adding a block keeps all skip links right and set. |
| `BlockTree.Tree.constructor` | src/chain.cpp:115-119 | An empty tree is in order. |
| `BlockTree.Tree.AddBlock` | src/chain.cpp:115-119 | So is every tree grown by adding blocks to blocks. |
| `BlockTree.PathsMeet` | src/chain.cpp:153-170 | Two paths that meet agree on everything below. |
| `BlockTree.LastCommonAncestor` | src/chain.cpp:155-170 | The highest block on both paths, or null exactly when there is none. |
| `BlockTree.Chain.constructor` | src/chain.cpp:11-21 | An empty chain is coherent. |
| `BlockTree.Chain.SetTip` | src/chain.cpp:11-21 | The early stop at the first shared block is right: the chain becomes exactly the path to the tip, whatever it was before. |
| `BlockTree.SharedBelow` | src/chain.cpp:16-20 | If chain and path agree at a height, they agree everywhere below. |
| `BlockTree.Chain.FindFork` | src/chain.cpp:51-60 | The highest block on both the chain and the path of the block. |
| `BlockTree.Chain.GetLocator` | src/chain.cpp:23-49 | The hashes at the locator heights, the same by chain index or by skip list. |
| `BlockTree.LocatorFalls` | src/chain.cpp:23-49 | Locator heights fall strictly from the block to the genesis. |
| `BlockTree.LocatorReach` | src/chain.cpp:44-45 | After ten entries the distance covered doubles with each one. |
| `BlockTree.LocatorShort` | src/chain.cpp:23-49 | So a locator has at most twelve entries more than the logarithm of the height. |
| `CompactBlocks.Encode` | src/blockencodings.cpp:19-29 | The first transaction in full, short ids for the others. |
| `CompactBlocks.EncodedRepresents` | src/blockencodings.cpp:19-29 | Such a message stands for the block. |
| `CompactBlocks.PartiallyDownloadedBlock.constructor` | src/blockencodings.h:204 | A new download knows nothing. |
| `CompactBlocks.PartiallyDownloadedBlock.Prefill` | src/blockencodings.cpp:59-75 | Accepts exactly the differential indices that leave a short id for every other position, and puts the transactions in place. |
| `CompactBlocks.PartiallyDownloadedBlock.SkipFilled` | src/blockencodings.cpp:84-85 | Skipping filled positions reaches the position of the short id. |
| `CompactBlocks.PartiallyDownloadedBlock.AssignShortIds` | src/blockencodings.cpp:81-103 | Fails exactly for a repeated short id or a crowded bucket, and otherwise maps every short id to its position; sixteen bits are enough. |
| `CompactBlocks.PartiallyDownloadedBlock.TakeOffer` | src/blockencodings.cpp:110-126 | One entry with a short id that was sent changes only its position: a first match fills it, a second clears it. |
| `CompactBlocks.PartiallyDownloadedBlock.MatchPool` | src/blockencodings.cpp:105-133 | All entries are taken into account, or the scan stopped with every position filled. |
| `CompactBlocks.PartiallyDownloadedBlock.MatchExtra` | src/blockencodings.cpp:135-164 | The same for extra transactions, where only a different transaction clears a position. |
| `CompactBlocks.PartiallyDownloadedBlock.InitData` | src/blockencodings.cpp:49-169 | Invalid and failed exactly in the stated cases; otherwise each position is the prefilled transaction or what the matching entries make of it. |
| `CompactBlocks.SlotOffered` | src/blockencodings.cpp:108-164 | A filled position holds a pool transaction with its short id. |
| `CompactBlocks.SingleMatchFills` | src/blockencodings.cpp:108-164 | A transaction that alone matches a short id fills its position, duplicates among the extra ones apart. |
| `CompactBlocks.PartiallyDownloadedBlock.MissingIndexes` | src/net_processing.cpp:2513-2517 | Asks for exactly the positions without a transaction, in order. |
| `CompactBlocks.EncodeIndexes` | src/blockencodings.h:62-67 | The differential form of a list of positions. |
| `CompactBlocks.DecodeIndexes` | src/blockencodings.h:55-61 | Succeeds exactly on encodings of increasing 16-bit positions, and gives them back. |
| `CompactBlocks.DiffsDetermine` | src/blockencodings.h:55-67 | The differences determine the positions. |
| `CompactBlocks.Respond` | src/net_processing.cpp:1333-1342 | Answers with the transactions at the requested positions, unless one is out of range. |
| `CompactBlocks.PartiallyDownloadedBlock.FillBlock` | src/blockencodings.cpp:177-219 | Invalid exactly for the wrong number of transactions; otherwise the result merges both in order, and a second call is ruled out. |
| `CompactBlocks.MatchedAgrees` | src/blockencodings.cpp:108-164 | Without a foreign entry under a short id of the block, every filled position has the right transaction. |
| `CompactBlocks.MergedIsBlock` | src/blockencodings.cpp:183-191 | Filling the gaps of such a list with the block transactions gives the block. |
| `CompactBlocks.Relay` | src/blockencodings.cpp:19-219 | The whole exchange: accepted exactly when short ids are distinct and buckets not crowded, and then, without foreign entries, the receiver ends with exactly the block that was sent. |
| `Base58.CanonicalValue` | src/base58.cpp:110-119 | The shortest digits of a number have its value. |
| `Base58.CanonicalUnique` | src/base58.cpp:110-119 | Digits without leading zero are the only such digits of their value. |
| `Base58.StripCanonical` | src/base58.cpp:71-74 | Dropping leading zeroes of any digits gives those. |
| `Base58.Room` | src/base58.cpp:93 | A rational bound on the ratio of logarithms gives enough digits for every length. |
| `Base58.EncodeRoom` | src/base58.cpp:92-93 | 138 digits for every 100 bytes, and one, always suffice. |
| `Base58.DecodeRoom` | src/base58.cpp:46-47 | 733 bytes for every 1000 digits, and one, always suffice. |
| `Base58.MulAdd` | src/base58.cpp:98-107 | Multiply-and-add in place in any base is exact, and the final carry is zero: the source assert holds whenever the result fits. |
| `Base58.Strip` | src/base58.cpp:110-113 | Skipping zeroes from the tracked length gives the canonical digits. |
| `Base58.CharDigit` | src/base58.cpp:13-32 | The reverse table undoes the alphabet. |
| `Base58.DigitChar` | src/base58.cpp:13-32 | And the alphabet undoes the reverse table. |
| `Base58.ToBase58` | src/base58.cpp:92-113 | The loop converts the number, for any number of bytes, without running out of room. |
| `Base58.ToText` | src/base58.cpp:114-120 | Digits are written in the alphabet. |
| `Base58.EncodeBase58` | src/base58.cpp:83-121 | A one per leading zero byte, then the number in base 58. |
| `Base58.ReadWord` | src/base58.cpp:46-65 | Reads exactly words of valid characters, up to the next blank, to the bytes of their number. |
| `Base58.DecodeBase58` | src/base58.cpp:34-81 | Accepts exactly an optional run of blanks, valid characters and an optional run of blanks, and nothing else. |
| `Base58.DecodeEncode` | src/base58.cpp:34-121 | Decoding an encoding gives back the bytes, for all bytes. |
| `Base58.EncodeDecode` | src/base58.cpp:34-121 | Encoding what was decoded gives back the string without its blanks. |
| `Base58.EncodeThenDecode` | src/base58.cpp:34-121 | The same for the two methods themselves. |
| `Bech32.StepLinear` | src/bech32.cpp:80-91 | One step of the checksum is linear. |
| `Bech32.StepNonZero` | src/bech32.cpp:80-91 | A step without input keeps a nonzero state nonzero and within 30 bits. |
| `Bech32.RunLinear` | src/bech32.cpp:37-94 | The whole checksum is linear. |
| `Bech32.ZerosKeepNonZero` | src/bech32.cpp:37-94 | No number of zero symbols makes a nonzero state vanish. |
| `Bech32.SixSymbols` | src/bech32.cpp:37-94 | Up to six symbols vanish only if all are zero. |
| `Bech32.BurstDetected` | src/bech32.cpp:37-94 | Two inputs that differ only within six neighbouring symbols have different checksums, whatever stands around them. |
| `Bech32.AddSymbol` | src/bech32.cpp:80-91 | The five conditional corrections are the reduction step. |
| `Bech32.PolyMod` | src/bech32.cpp:37-94 | The loop computes the remainder of its input. |
| `Bech32.ExpandHRP` | src/bech32.cpp:103-115 | High bits, a zero, low bits of the readable part. |
| `Bech32.VerifyChecksum` | src/bech32.cpp:118-125 | Accepts exactly remainder one. |
| `Bech32.CreateChecksum` | src/bech32.cpp:128-139 | The six symbols complete the data to a valid word, and no other six do. |
| `Bech32.ChecksumCompletes` | src/bech32.cpp:128-139 | The symbols read off the remainder complete every input. |
| `Bech32.ChecksumUnique` | src/bech32.cpp:128-139 | Two completions of the same data are equal. |
| `Bech32.ErrorsDetected` | src/bech32.cpp:118-125 | Changing symbols within any six neighbouring places of a valid word never gives a valid word. |
| `Bech32.CharSymbol` | src/bech32.cpp:12-25 | The reverse table undoes the alphabet. |
| `Bech32.SymbolChar` | src/bech32.cpp:12-25 | The alphabet undoes the reverse table up to case. |
| `Bech32.Encode` | src/bech32.cpp:147-156 | Readable part, separator and data with a valid checksum. |
| `Bech32.CheckCase` | src/bech32.cpp:160-167 | Accepts exactly printable characters of not both cases. |
| `Bech32.Decode` | src/bech32.cpp:159-190 | Accepts exactly well-formed strings with a valid checksum, split at the last separator. |
| `Bech32.DecodeEncode` | src/bech32.cpp:147-190 | Decoding an encoding gives back both parts exactly when the readable part is nonempty, printable and without capitals and the whole has at most ninety characters. |
| `Bech32.EncodeThenDecode` | src/bech32.cpp:147-190 | The same for the two methods themselves. |
| `Bech32.EncodeDecode` | src/bech32.cpp:147-190 | Whatever decodes is, in lower case, the encoding of what it decodes to. |
| `Bech32.DecodeThenEncode` | src/bech32.cpp:147-190 | Decoding and encoding again gives the string in lower case, for every string that decodes. |
| `DependencyInjector.BuildMaps` | src/dependency_injector.h:33-39 | The two maps hold exactly the edges, with an entry for every node. |
| `DependencyInjector.FindReady` | src/dependency_injector.h:40-45 | Exactly the nodes without incoming edge. |
| `DependencyInjector.Release` | src/dependency_injector.h:50-55 | Removes the edges of a finished node and adds exactly the nodes that lost their last one. |
| `DependencyInjector.PutOut` | src/dependency_injector.h:46-49 | A node without incoming edge may come next. |
| `DependencyInjector.AfterRelease` | src/dependency_injector.h:50-56 | After each node, what is left is the graph without the finished nodes, and the ready set is exact. |
| `DependencyInjector.NoStartHasCycle` | src/dependency_injector.h:61-65 | A nonempty set in which every node has a predecessor contains a cycle. |
| `DependencyInjector.SortedIsAcyclic` | src/dependency_injector.h:58-60 | A graph that can be sorted has no cycle. |
| `DependencyInjector.Finish` | src/dependency_injector.h:58-65 | Edges left over mean a cycle; none left means that all nodes are sorted. |
| `DependencyInjector.TopologicalSort` | src/dependency_injector.h:28-66 | Succeeds exactly on graphs without cycle, with every node once and every edge forward, whichever ready node is taken. |
| `DependencyInjector.GraphCircles` | src/dependency_injector.h:386-391 | The edge list has a cycle exactly when the dependencies have a circle. |
| `DependencyInjector.Injector.constructor` | src/dependency_injector.h:351-353 | A new injector is neither initialised nor running. |
| `DependencyInjector.Injector.CheckDependencies` | src/dependency_injector.h:356-368 | Exactly whether every dependency is registered. |
| `DependencyInjector.Injector.BuildGraph` | src/dependency_injector.h:386-391 | An edge for every dependency, and no other. |
| `DependencyInjector.Injector.DetermineInitializationOrder` | src/dependency_injector.h:384-397 | Fails exactly for unregistered or circular dependencies; otherwise exactly the components with a dependency or dependent, dependencies first. |
| `DependencyInjector.Injector.Initialize` | src/dependency_injector.h:399-416 | Every outcome exactly: components come up in that order, each after all it depends on; the first that fails ends it, and then nothing is left to stop or delete. |
| `DependencyInjector.DependenciesUp` | src/dependency_injector.h:260-268 | When a component is brought up, everything it depends on is up. |
| `DependencyInjector.Injector.Stop` | src/dependency_injector.h:418-436 | Stops all in the reverse order, once, despite failures, and reports exactly the failing ones. |
| `DependencyInjector.Injector.Destroy` | src/dependency_injector.h:439-454 | Stops what is running, then deletes exactly what the injector owns. |
| `DependencyInjector.Injector.DeleteOwned` | src/dependency_injector.h:449-453 | Deletes the managed components in the reverse order. |
| `DependencyInjector.ReversedBefore` | src/dependency_injector.h:413-414 | Reversing an order reverses every precedence. |
| `DependencyInjector.OwnedBefore` | src/dependency_injector.h:449-453 | Leaving out unmanaged components keeps precedences. |
| `DependencyInjector.InOrder` | src/dependency_injector.h:399-454 | Dependencies come up before, and are stopped and deleted after, their dependents. |
| `DependencyInjector.Lifecycle` | src/dependency_injector.h:351-454 | The whole life of an injector: it comes up exactly when dependencies are registered and without circle and no initialiser fails, and then the log shows exactly the components with a dependency or a dependent, each once, up after, and stopped and deleted before, what it depends on; stopping reverses the order and exactly the owned ones are deleted. After a failure the log shows those brought up before it. |
| `DependencyInjector.LoneComponent` | src/dependency_injector.h:351-454 | A component without dependencies and dependents is never brought up, stopped or deleted. |

## Left out

- AddressManager.AddrMan.Execute: selection by chance (`Select_`, `GetChance`), which changes nothing and whose odds are floating point, is not among the operations, and neither is `Clear`, after which a recorded collision may be stale.
- AddressImage.Unserialize: the byte format (version, the count of buckets with one bit flipped, lengths) is parsed already, so streams that end early or hold negative counts are left out.
- AddressManager.AddrMan.Run: ids and counters are unbounded; the source uses 32-bit integers.
- AddressManager.AddrMan.ResolveCollisions: the branch for an empty slot is left out because the invariant rules it out.
- AddressManager.AddrMan.Good: the branch for an entry without bucket is left out because the invariant rules it out.
- AddressManager.AddrMan.CheckEntries: reading a missing index entry yields zero but does not insert it, as the source's index operator would.
- AddressManager.PassingIsConsistent: assumes that the address index has no stray entries, which the consistency check does not look at.
- Coins.CoinsCache.Flush: best-block bookkeeping, database batches on disk and snapshot application are left out.
- Coins.Run: the snapshot hash is a sum of arbitrary integer contributions; the elliptic-curve group behind it is not modelled.
- CheckQueue.EveryRun: critical sections are atomic; the memory model below the mutex and 32-bit wrap-around of counters are left out.
- CheckQueue.WaitEnds: the scheduler may insert any number of spurious wakeups, so the bound is in terms of them.
- Miner.BlockAssembler.AddPackageTxs: fees are not modelled, so the order of candidates is arbitrary and the fee policy is the number of the candidate at which it stops; the sum of fees and the coinbase are left out.
- Miner.BlockAssembler.AddMandatoryTxs: which transactions are mandatory is a parameter; the checks of votes are left out.
- PartialMerkle.ProofIsSound: assumes a collision-free hash, the number of transactions of the block, and a root that is not zero.
- PartialMerkle.PartialMerkleTree.TraverseAndExtract: positions and heights are unbounded; 32-bit shifts for very many transactions are left out.
- ArithUint256.SetCompact: stated for eight limbs, as the compact format is; hexadecimal text, conversion to double and bitwise operators are left out.
- ArithUint256.GetBlockProof: the conversion of work to equivalent time is left out.
- CuckooCache.Cache.Setup: the depth limit is a parameter of at least one; the floating-point logarithm that sets it is left out.
- CuckooCache.Cache.Contains: concurrent lookups and memory orderings are left out.
- Iblt.Table.ListEntries: assumes that no cell of the table misleads the emptiness and purity tests for the items reached by peeling (a hash property, which holds outright for items that share no cell), and that the two output maps are different objects; serialization and the choice of parameters are left out.
- Iblt.Table.Insert: for a key that is already in with the same sign, or with another value, only the effect on the cells is stated, as items have one sign and value for each key; the same holds for erasing.
- Iblt.Reconcile: takes sets that agree on the values of shared keys.
- Iblt.Table.Size: for tables of inserted items only; a difference of tables has no meaningful size.
- RollingBloom.RollingBloomFilter.constructor: hash count and table size are parameters; the formulas for the false-positive rate are left out, as is the plain Bloom filter. Words are sequences of bits. No elements or an empty table are excluded, as the source would divide or index out of range.
- BlockTree.BlockIndex.BuildSkip: returns the link for a new block, which is a constant field set at creation; later assignment of links is left out.
- BlockTree.Chain.FindFork: search by block time is left out.
- CompactBlocks.PartiallyDownloadedBlock.InitData: requires the limits that deserialization enforces (src/blockencodings.h:189-190), under which the weight limit never applies; the count of extra transactions, used for logging only, is left out.
- CompactBlocks.PartiallyDownloadedBlock.AssignShortIds: which buckets are crowded depends on the hash map of the standard library and is a parameter.
- Base58.DecodeBase58: the checksummed variant is left out.
- Bech32.ErrorsDetected: covers changes within six neighbouring symbols; the guarantee for four scattered errors within 89 characters, an exhaustive property of the generator, is left out.
- DependencyInjector.Injector.Initialize: construction of instances is an arbitrary success or failure; atomic flags are plain fields.
- The finalization protocol, the wallet, networking, scripts, storage formats and the user interface are left out: separate subsystems, or mostly glue around those above.

# Verified models of the Tessa node

A Dafny project that models the algorithmic cores of the Tessa node (a Bitcoin and PIVX descendant in C++) and proves
what they are relied on for. `dafny verify dfyconfig.toml` checks all of it.

**Address manager** (`AddrMan*.dfy`). Entries, an address map, a random order, the two bucket tables and two counters
describe one set of addresses. The state and its specification are in `AddrManState`, `AddrManOps` and `AddrManRuns`;
the class over arrays in `AddrManTables`; the consistency check in `AddrManCheck`; storing and loading in
`AddrManCodec`, `AddrManStream` and `AddrManLoad`. Main results: `AddrManRuns.RunKeeps` (every run from construction
keeps the full invariant, so no assertion fails), `AddrManCheck.PassesIffInv` (the invariant is what the code's own
check tests, and two things it does not), `AddrManEffects.GoodMeans` and its siblings (what each operation does to
every entry and slot) and `AddrManLoad.Unserialize` with `RenamedSame` (loading what was stored gives the same manager
up to the numbering of entries, and loading any stream of entries that fit together gives a consistent one). Bucket
hashes, times and random numbers are parameters; so are the bucket counts.

**Coin caches** (`CoinsCache`, `CoinsRuns`, `CoinsViews`). Write-back caches stacked to any depth over a database.
Main results: `CoinsRuns.RunRefines` (every run is a run of plain maps) and `CoinsCache.FlushDownKeeps` (flushing
everything leaves the top view in the database). The best block does not always go with it: `CoinsCache.FlushBest`
says exactly when, and `CoinsCache.UnknownBestIsStored` shows where it fails.

**Blocks done and undone** (`CoinsSpend`, `CoinsBlocks`, `UndoCodec`, `CoinsRestore`, `CoinsUndo`, `UndoLoss`). Inputs
are spent with undo records, which are written to disk, read back and used to restore them. Main results:
`CoinsBlocks.BlockLeaves` (what can be spent after a block), `CoinsUndo.BlockUndone` and `UndoLoss.StoredBlockUndone`
(disconnecting a block undoes connecting it exactly when no record is lost), `UndoLoss.LostInBlockIs` (which records
those are) and `UndoCodec.ComesBack` (what an undo record keeps). One would expect that nothing is ever lost. It fails
for `CoinsRestore.CoinstakeIsLost` and `CoinsRestore.VersionIsLost`; `CoinsRestore.RestoreSpent` and
`CoinsUndo.DisconnectUndoesConnect` state the exact condition, and `UndoLoss.NoLossInBlock` a simple one that is
enough.

**Coin records** (`VarInt`, `Amounts`, `Scripts`, `CoinsCodec`, `CoinsStream`). The stored form of a record, byte by
byte. Main results: `CoinsCodec.UnserializeSerialized` for every record that is not pruned, and
`CoinsCodec.StoredSame`, which says for which records what comes back is the same (not for
`CoinsCodec.VersionIsLost`). The rounds of an output are not stored, but are never anything but -10
(src/primitives/transaction.cpp:53-57). The header of a record is scaled by 16, as `Serialize` and `Unserialize` do
it; `GetSerializeSize` scales it by 8. Two lines of the table at src/serialize.h:257-262 do not agree with the code:
it writes 16511 as FF 7F and 65535 as 82 FE 7F (`VarInt.KnownNumbers`).

**Check queue** (`CheckQueue`, `CheckProgress`). One master and any number of workers as a state machine of critical
sections. Main results: `CheckQueue.WaitIsRight` and `CheckQueue.IdleInRuns` over every interleaving,
`CheckQueue.NeverStuck` against lost wake-ups, and `CheckProgress.BoundedWork` with `CheckProgress.DoneReturns`, by
which a Wait ends; `CheckProgress.AddWakes` and its siblings are about the workers.

**Coin selection** (`Denominations`, `CoinChange`, `CoinSelection`, `ChangePlans`). Greedy selection over
denominations that divide one another. Main results: `Denominations.GreedyIsBest` (an exchange argument),
`ChangePlans.CalculateChange` through every branch, and `ChangePlans.SelectMints`. `ChangePlans.MinimizeChange` on its
own can come to less than the target; its contract says exactly when, and `ChangePlans.OwnOrTopUp` why its caller is
safe. A plan with change can go over the limit on spends (`ChangePlans.LimitIsExceeded`); `ChangePlans.LimitKept` says
exactly when it does not.

**Base 58** (`Radix`, `Base58`). In-place change of base in buffers sized by rational approximations. Main results:
`Base58.DecodeEncode`, `Base58.EncodeDecode`, `Base58.EncodeFits`, `Base58.DecodeFits`, and both checksum variants.

**Large integers and compact targets** (`Limbs`, `LimbShifts`, `ArithUint`, `Compact`). Arithmetic in place on 32-bit
limbs, for every width of at least two limbs. Main results: `ArithUint.BaseUint.Divide` and its siblings against plain
arithmetic, `Compact.CompactedTarget`, `Compact.OverflowIsExact` and `Compact.CanonicalRoundTrip`, which holds of a
canonical form exactly when it does not overflow (not for `Compact.OverflowIsLost`).

**Block chain** (`BlockTree`, `ActiveChain`). Skip links, re-tipping, forks and locators over a block tree. Main
results: `BlockTree.BlockIndex.GetAncestor`, with a bound on its steps that is quadratic in the number of digits of
the height, `ActiveChain.Chain.SetTip`, `ActiveChain.Chain.FindFork` and `ActiveChain.LocatorShape`.

`Numbers`, `Wrappers` and `Bytes` hold what the modules share. Where both operands vary, products and quotients are
the functions `Mul`, `Quo` and `Rem`, defined by repeated addition and subtraction so that proofs go by their laws;
`Numbers.MulIs` and `Numbers.QuoIs` say that they are multiplication and integer division.

## Model

| member | source | states |
|---|---|---|
| `AddrManInvariant.CreateKeeps` | src/addrman.cpp:82-90 | Making an entry keeps every index consistent, with a new id that was not in use; the new entry is the only one added to those without a reference. |
| `AddrManInvariant.SwapKeeps` | src/addrman.cpp:92-108 | Exchanging two places of the random order keeps order and positions inverse to each other and changes nothing else. |
| `AddrManInvariant.DeleteKeeps` | src/addrman.cpp:110-121 | An entry without references can be deleted (the three assertions hold), and what is left is consistent. |
| `AddrManInvariant.UnrefKeeps` | src/addrman.cpp:123-133 | An occupied slot of the new table always names an entry outside the tried table whose reference count is positive, so the assertion holds; emptying the slot keeps the counts equal to the occupied slots. |
| `AddrManInvariant.RefKeeps` | src/addrman.cpp:263-281 | Filling an empty slot at its hashed place keeps the counts equal to the occupied slots, never above eight. |
| `AddrManInvariant.UntryKeeps` | src/addrman.cpp:152-174 | An occupied slot of the tried table names a tried entry without references; taking it out keeps the tables consistent. |
| `AddrManInvariant.PlaceTriedKeeps` | src/addrman.cpp:176-180 | Moving an entry without references to its free tried slot keeps both tables and both counters exact. |
| `AddrManInvariant.SetInfoKeeps` | src/addrman.cpp:233-255 | Rewriting the statistics of an entry keeps every index. |
| `AddrManOps.ClearNewKeeps` | src/addrman.cpp:123-133 | Clearing a slot removes exactly that slot, and deletes its entry exactly when that was its last reference; nothing else is lost. |
| `AddrManOps.DetachKeeps` | src/addrman.cpp:135-146 | Going through any number of buckets takes exactly the slots of one entry out of the new table, and lowers its count by as many. |
| `AddrManOps.WithdrawKeeps` | src/addrman.cpp:135-148 | After all buckets the entry has no reference left, so the assertion on its count holds. |
| `AddrManOps.EvictKeeps` | src/addrman.cpp:152-174 | An entry evicted from the tried table returns to the new table: it holds its own place there with one reference; the slot it takes is cleared first. |
| `AddrManOps.EvictTouches` | src/addrman.cpp:152-174 | An eviction loses at most the entry that held the slot, and changes no other. |
| `AddrManOps.EvictionKeeps` | src/addrman.cpp:135-174 | Before the new tried entry is placed its slot is free and the entry itself still exists. |
| `AddrManOps.MakesRoom` | src/addrman.cpp:152-174 | An eviction while another entry is withdrawn keeps that entry, frees the slot, and loses at most one entry, which is not tried. |
| `AddrManRuns.MakeTriedKeeps` | src/addrman.cpp:135-180 | The whole move keeps the full invariant: the entry ends in its tried slot, the previous occupant of that slot in the new table, and at most one entry is lost. |
| `AddrManRuns.ScanFinds` | src/addrman.cpp:204-218 | Every entry outside the tried table is found in some bucket, so the early return after the scan is never taken. |
| `AddrManRuns.GoodKeeps` | src/addrman.cpp:182-224 | Good keeps the full invariant; a known service ends in its tried slot, an unknown one changes nothing. |
| `AddrManRuns.Lookup` | src/addrman.cpp:73-80 | Find returns the one entry with the address, and nothing exactly when there is none. |
| `AddrManRuns.InsertKeeps` | src/addrman.cpp:263-281 | Placing an entry in its bucket keeps the full invariant, whether it takes the slot, already has it, or is dropped. |
| `AddrManRuns.AddKnownKeeps` | src/addrman.cpp:233-255 | Adding a known address keeps the full invariant on every early return and on the way to the bucket. |
| `AddrManRuns.RefreshedForward` | src/addrman.cpp:233-243 | A known entry is never set back in time and loses no service; nothing else of it changes. |
| `AddrManRuns.FactorIs` | src/addrman.cpp:253-256 | The factor is two to the number of references. |
| `AddrManRuns.AddUnknownKeeps` | src/addrman.cpp:257-281 | Adding an unknown address keeps the full invariant. |
| `AddrManRuns.AddKeeps` | src/addrman.cpp:226-283 | Add keeps the full invariant, reports a new address exactly when it is routable and was unknown, and does nothing for one that is not routable. |
| `AddrManRuns.TouchKeeps` | src/addrman.cpp:285-299 | An update of times and attempts keeps the full invariant. |
| `AddrManRuns.GetAddrKeeps` | src/addrman.cpp:391-406 | GetAddr keeps the full invariant and returns distinct entries, none terrible, at most 23 percent of all and at most 2500, and all of the others when neither limit is reached. |
| `AddrManEffects.WorthHandingOut` | src/addrman.cpp:37-55 | An entry is not terrible exactly when it was tried within a minute, or was seen within thirty days and not in the future, has not failed three times without success, and has not failed ten times in a week without success. |
| `AddrManEffects.EvictFacts` | src/addrman.cpp:152-174 | An eviction changes what no entry says about its address, and puts the evicted entry into its own slot of the new table and nothing else anywhere. |
| `AddrManEffects.MakeTriedFacts` | src/addrman.cpp:135-180 | Moving an entry to the tried table changes what no entry says, and the tables exactly so: it leaves all its new slots for its tried slot, and the entry that was there gets its own new slot. |
| `AddrManEffects.GoodMeans` | src/addrman.cpp:182-224 | After Good the entry for this address and port has this time as its last success and last try and no attempts, is tried and is otherwise as it was; what every other entry left says is unchanged. |
| `AddrManEffects.AttemptMeans` | src/addrman.cpp:285-299 | Attempt counts one more attempt at this time for this address and port, and changes nothing else. |
| `AddrManEffects.ConnectedMeans` | src/addrman.cpp:408-422 | Connected moves the time of this address and port exactly when it is more than twenty minutes old, and changes nothing else. |
| `AddrManEffects.InsertFacts` | src/addrman.cpp:263-281 | An insertion changes what no entry says, and fills the one slot that address and source select, exactly when the entry may have it. |
| `AddrManEffects.AddKnownMeans` | src/addrman.cpp:226-283 | Announcing a known address: its entry gets the later time less the penalty exactly when it is news, and the services of both; one slot changes at most, and exactly under the conditions listed; what every other entry left says is unchanged. |
| `AddrManEffects.AddUnknownMeans` | src/addrman.cpp:226-283 | Announcing an unknown address: if it is kept, it is as announced, with the time less the penalty and no history, in the one slot that address and source select; what every other entry left says is unchanged. |
| `AddrManRuns.ApplyKeeps` | src/addrman.cpp:182-422 | Each operation, with the times the network code passes, keeps the full invariant. |
| `AddrManRuns.InitKeeps` | src/addrman.h:407-422 | A freshly constructed manager satisfies the invariant. |
| `AddrManRuns.RunKeeps` | src/addrman.cpp:182-422 | Every run of operations from construction keeps the full invariant. |
| `AddrManTables.AddrManager.constructor` | src/addrman.h:407-422 | Both tables empty, nothing else stored. |
| `AddrManTables.AddrManager.Create` | src/addrman.cpp:82-90 | The arrays and maps after the call are those of the specified new state. |
| `AddrManTables.AddrManager.SwapRandom` | src/addrman.cpp:92-108 | As specified, also for equal positions. |
| `AddrManTables.AddrManager.Delete` | src/addrman.cpp:110-121 | As specified, for an entry that may be deleted. |
| `AddrManTables.AddrManager.ClearNew` | src/addrman.cpp:123-133 | As specified, for every slot. |
| `AddrManTables.AddrManager.MakeTried` | src/addrman.cpp:135-180 | As specified, through the loop over the buckets, the eviction and the placement. |
| `AddrManTables.AddrManager.RemoveFromNew` | src/addrman.cpp:137-148 | The loop over all buckets withdraws the entry from the new table. |
| `AddrManTables.AddrManager.RemoveFromBucket` | src/addrman.cpp:138-146 | One round of the loop: the entry leaves one bucket. |
| `AddrManTables.AddrManager.Evict` | src/addrman.cpp:152-174 | As specified. |
| `AddrManTables.AddrManager.PlaceInTried` | src/addrman.cpp:176-180 | As specified. |
| `AddrManTables.AddrManager.Good` | src/addrman.cpp:182-224 | As specified, from whatever bucket the scan starts. |
| `AddrManTables.AddrManager.Scan` | src/addrman.cpp:204-218 | The wrapping scan finds the entry exactly when some bucket holds it. |
| `AddrManTables.AddrManager.Add` | src/addrman.cpp:226-283 | As specified on every branch. |
| `AddrManTables.AddrManager.Refresh` | src/addrman.cpp:233-255 | A known entry that is announced again is brought forward in time and gets the new services; the call says whether it is to get one more reference. |
| `AddrManTables.AddrManager.Updated` | src/addrman.cpp:235-243 | The entry with its new time and services. |
| `AddrManTables.AddrManager.UpdatedTime` | src/addrman.cpp:235-239 | The interval and the two tests that decide about the new time. |
| `AddrManTables.AddrManager.Declined` | src/addrman.cpp:245-256 | The early returns; the loop doubles the factor once for each reference. |
| `AddrManTables.AddrManager.Announce` | src/addrman.cpp:257-262 | As specified. |
| `AddrManTables.AddrManager.Place` | src/addrman.cpp:263-281 | As specified. |
| `AddrManTables.AddrManager.Attempt` | src/addrman.cpp:285-299 | As specified. |
| `AddrManTables.AddrManager.Connected` | src/addrman.cpp:408-422 | As specified. |
| `AddrManTables.AddrManager.GetAddr` | src/addrman.cpp:391-406 | As specified, with the shuffle that goes with it. |
| `AddrManCheck.CheckEntries` | src/addrman.cpp:341-357 | The loop over the entries passes exactly when every entry does, and then holds the tried ids and the counts of the others. |
| `AddrManCheck.CheckTried` | src/addrman.cpp:362-371 | The loop over the tried table passes exactly when it holds every tried id once, at its hashed place. |
| `AddrManCheck.CheckNew` | src/addrman.cpp:373-381 | The loop over the new table passes exactly when every count is the number of slots, each at its hashed place. |
| `AddrManCheck.Check` | src/addrman.cpp:335-388 | Returns zero exactly when all its conditions hold. |
| `AddrManCheck.PassesIffInv` | src/addrman.cpp:335-388 | The invariant proved for every run is what Check_ tests, together with the ids in range and the address map being exact, which Check_ does not test. |
| `AddrManCodec.FlipTwice` | src/addrman.h:273 | The marking of the bucket count undoes itself. |
| `AddrManCodec.Sizes` | src/addrman.h:276-294 | The entries written are as many as the two counters say. |
| `AddrManCodec.Bijection` | src/addrman.h:275-294 | The numbering used in the stream is a bijection, new entries first. |
| `AddrManCodec.WriteEntries` | src/addrman.h:275-294 | The loop writes one kind of entry in id order and numbers them in that order. |
| `AddrManCodec.CountBucket` | src/addrman.h:296-300 | Counts the occupied slots of a bucket. |
| `AddrManCodec.WriteRow` | src/addrman.h:301-306 | Writes the numbers of the entries in a bucket. |
| `AddrManCodec.Serialize` | src/addrman.h:263-308 | The stream is the specified one. |
| `AddrManLoad.ReadHeader` | src/addrman.h:313-325 | Reads back the header that was written, and the key and the counts of any header. |
| `AddrManStream.BuiltNew` | src/addrman.h:327-345 | A new entry read from any stream of different addresses keeps every index and table, whether it is placed by its own source or not. |
| `AddrManStream.BuiltTried` | src/addrman.h:347-366 | A tried entry keeps them too; it is placed in its slot or lost. |
| `AddrManStream.BuiltRef` | src/addrman.h:375-384 | So does a reference from a bucket. |
| `AddrManStream.BuiltCounts` | src/addrman.h:313-385 | The entries built are as many as the ids, and the new ones as many as the header says. |
| `AddrManStream.PruningNext` | src/addrman.h:387-397 | Pruning looks at every entry once and deletes exactly those that no bucket refers to. |
| `AddrManStream.PruningEnd` | src/addrman.h:387-397 | What is left after pruning satisfies the full invariant, and the entries deleted are counted. |
| `AddrManLoad.ReadNew` | src/addrman.h:327-345 | Rebuilds the new entries of a stored manager; from any stream of different addresses a consistent state; whatever the stream says, order and positions stay inverse. |
| `AddrManLoad.ReadTried` | src/addrman.h:347-366 | Rebuilds the tried entries of a stored manager, none of them lost; from any stream of different addresses a consistent state, with every entry placed or counted as lost. |
| `AddrManLoad.ReadBuckets` | src/addrman.h:368-385 | Rebuilds every slot of the new table and every reference count of a stored manager; whatever the indices, consistent state stays consistent. |
| `AddrManLoad.Prune` | src/addrman.h:387-397 | Removes nothing when every entry has a place; from a consistent state it makes one that satisfies the full invariant, and counts what it removes. |
| `AddrManLoad.Unserialize` | src/addrman.h:310-403 | Reading what was written from a consistent manager gives the renumbered manager and loses nothing. Any stream that can be read, of another version or bucket count too, whose addresses differ, whose times are not negative, whose tried entries have succeeded and whose key is not zero, gives a manager that satisfies the full invariant, with every entry loaded or counted as lost. |
| `AddrManLoad.RenamedSame` | src/addrman.h:310-403 | The renumbered manager has the same entries, the same placements in both tables and the same counters; only the time of the last try is not stored. |
| `AddrManLoad.RenamedInv` | src/addrman.h:310-403 | The renumbered manager satisfies the full invariant. |
| `Coins.Trim` | src/coins.h:118-121 | The longest prefix that does not end with a spent output. |
| `Coins.Cleanup` | src/coins.h:118-121 | Cleaned up, and pruned exactly when it was. |
| `CoinsCache.FetchKeeps` | src/coins.cpp:79-92 | Fetching at any depth changes no view, keeps every flag right, and leaves an entry wherever the view has one. |
| `CoinsCache.ModifyKeeps` | src/coins.cpp:103-119 | A modification changes the view of its own level at one id only, to the edited and cleaned up record; lower views and all flags stay right. |
| `CoinsCache.NoUnbackedEntry` | src/coins.cpp:152-157 | A child entry whose id the parent does not have is fresh, so the assertion in BatchWrite holds. |
| `CoinsCache.MergeKeeps` | src/coins.cpp:146-175 | The merged entry shows what the child showed, and its flags are right against the grandparent. |
| `CoinsCache.FlushedLook` | src/coins.cpp:146-186 | After a flush the parent answers as the child did, pruned and absent being the same, and the views below are unchanged. |
| `CoinsCache.FlushKeeps` | src/coins.cpp:146-186 | A flush keeps the whole stack consistent at any depth. |
| `CoinsCache.FlushBest` | src/coins.cpp:178-186 | The parent takes over the best block exactly when the child has one of its own, or writes to the database, or nothing differs below: a null hash overwrites a cache but not the database. |
| `CoinsCache.UnknownBestIsStored` | src/coins.cpp:178 | A stack in which a flush loses the best block: the child does not know it, the parent does. |
| `CoinsCache.FlushDownKeeps` | src/coinsviewdb.cpp:18-58 | Flushing from the top down leaves in the database exactly the records the top showed, none of them pruned. |
| `CoinsRuns.Answers` | src/coins.cpp:94-137 | Every lookup answers as a plain map would. |
| `CoinsRuns.StepRefines` | src/coins.cpp:79-186 | Every operation on the stack is a step of plain maps. |
| `CoinsRuns.RunRefines` | src/coins.cpp:79-186 | Every run on caches stacked to any depth is a run of plain maps. |
| `CoinsRuns.StartRefines` | src/coinsviewdb.cpp:18-28 | A database without caches is its own plain map. |
| `CoinsViews.MergeBatch` | src/coins.cpp:146-180 | The loop over the batch merges every entry, in whatever order they come. |
| `CoinsViews.WriteBatch` | src/coinsviewdb.cpp:18-58 | The loop writes the changed records and erases the pruned ones. |
| `CoinsViews.CoinViews.GetCoins` | src/coins.cpp:79-101 | Fetches through the levels and returns what the view shows. |
| `CoinsViews.CoinViews.HaveCoins` | src/coins.cpp:130-137 | True exactly for a record with outputs left. |
| `CoinsViews.CoinViews.ModifyCoins` | src/coins.cpp:103-119 | As specified, including the clean-up when the scope ends. |
| `CoinsViews.CoinViews.Flush` | src/coins.cpp:146-186 | As specified, down to the database. |
| `CoinsViews.CoinViews.SetBestBlock` | src/coins.cpp:144 | Sets the hash of one level only. |
| `CoinsViews.CoinViews.GetBestBlock` | src/coins.cpp:139-142 | Returns the hash of the nearest level that has one, and changes no view. |
| `CoinsSpend.Record.CleanUp` | src/coins.h:118-121 | As specified. |
| `CoinsSpend.Record.Spend` | src/coins.cpp:34-47 | Succeeds exactly for an unspent output; otherwise nothing changes. |
| `CoinsSpend.SpentLeaves` | src/coins.cpp:34-47 | Spending one output leaves all others as they were. |
| `CoinsSpend.SpentValue` | src/coins.cpp:34-47 | The value left is less by the output spent. |
| `CoinsSpend.ValueConserved` | src/coins.cpp:34-47 | Over any sequence of spends, the value left plus the value of the undo data is the value there was. |
| `CoinsSpend.SpentOnce` | src/coins.cpp:34-47 | No output is spent twice in any sequence. |
| `CoinsSpend.StaysSpent` | src/coins.cpp:34-47 | What cannot be spent at first never can be. |
| `CoinsSpend.UndoDetermines` | src/coins.cpp:34-47 | What is left and the undo record of a spend determine the record, coinstakes included. |
| `CoinsSpend.UndosDetermine` | src/coins.cpp:34-47 | So do what is left and the undo records of any sequence of spends. |
| `UndoCodec.CodeParts` | src/undo.h:44-57 | The reader finds in the code of an undo record the height and the flags that the writer put there. |
| `UndoCodec.ReadWritten` | src/undo.h:44-58 | Reading an undo record that was written gives the record as stored and consumes exactly the bytes written. |
| `UndoCodec.ComesBack` | src/undo.h:44-58 | An undo record comes back the same exactly when its height takes 30 bits at most, its output survives, and its version is not negative, or zero if there is no height. |
| `UndoCodec.ListReadWritten` | src/undo.h:62-72 | The undo records of a transaction come back in order, each as stored. |
| `UndoCodec.BlockReadWritten` | src/blockundo.h:17-26 | So do those of a block. |
| `CoinsRestore.RestoredIs` | src/main.cpp:1530-1545 | The outputs come back, the one restored as it was stored; the metadata comes from the undo record if it has a height, without the flag of a coinstake and with the version as stored, and otherwise from the record found. |
| `CoinsRestore.MetaBack` | src/main.cpp:1530-1541 | The metadata comes back exactly when it was kept, or is still there. |
| `CoinsRestore.RestoreSpent` | src/main.cpp:1526-1546 | Restoring one input from its stored undo record gives the record back exactly when the output survives storing and, if the record had become empty, its metadata is kept: at a height other than zero it is no coinstake and its version is not negative, and at height zero it is still there. |
| `CoinsRestore.CoinstakeIsLost` | src/main.cpp:1530-1537 | The first output of a coinstake, spent last and restored: the record is no longer that of a coinstake, although the undo data says so. |
| `CoinsRestore.VersionIsLost` | src/undo.h:46 | A record of negative version, emptied and restored: it comes back with version 127. |
| `CoinsUndo.RestoredIntact` | src/main.cpp:1526-1546 | One input restored where all other outputs are there: the outputs are those there were, and the record is the old one exactly when it was recoverable and had come back before. |
| `CoinsUndo.OtherDamaged` | src/main.cpp:1526-1546 | What had not come back of a record before is not mended by restoring another output. |
| `CoinsUndo.OneInput` | src/main.cpp:1526-1546 | Restoring one input on a map that has come back in part: no other record changes, and the record is the old one exactly when it was recoverable and had come back before. |
| `CoinsUndo.RestoreClose` | src/main.cpp:1526-1546 | The same for all inputs of a transaction, with exactly the records that are lost. |
| `CoinsUndo.DisconnectUndoesConnect` | src/main.cpp:1526-1546 | Restoring the inputs of a transaction in reverse from their stored undo records gives the map of records there was, several inputs of one record included, if and only if every record that was changed is recoverable. |
| `CoinsUndo.SpendEach` | src/main.cpp:1307-1314 | The loop over the inputs; the assertion in it holds. |
| `CoinsUndo.ConnectEach` | src/main.cpp:1304-1318 | UpdateCoins for every transaction of a block: inputs spent, then outputs added, with the undo records in order. |
| `CoinsBlocks.InputsTake` | src/main.cpp:1307-1314 | After the inputs of a transaction exactly the outputs they name are gone, and all others are as they were. |
| `CoinsBlocks.BlockLeaves` | src/main.cpp:1304-1318 | After a block an output can be spent exactly when it could be in the record of the last transaction of the block with that id, or else in the record from before, and no later transaction of the block spends it; and then it is that output, in a record that says the same about its transaction. |
| `CoinsBlocks.NoneEmpty` | src/main.cpp:1304-1318 | No record is left without an output that can be spent. |
| `CoinsUndo.RestoreEach` | src/main.cpp:1526-1546 | The loop over the inputs, last to first. |
| `CoinsUndo.DisconnectEach` | src/main.cpp:1454-1548 | The loop over the transactions, last to first: outputs removed, then inputs restored. |
| `CoinsUndo.DisconnectClose` | src/main.cpp:1454-1548 | Disconnecting a block brings back every record from before the block except exactly those lost. |
| `CoinsUndo.BlockUndone` | src/main.cpp:1454-1548 | Disconnecting a block of new transactions with the undo records as stored, spends inside the block included, gives the map there was if and only if no record from before the block is lost. |
| `UndoLoss.LosesThrough` | src/main.cpp:1454-1548 | What is lost in two steps is lost in the first or in the second. |
| `UndoLoss.SpentLoses` | src/main.cpp:1526-1546 | One spend loses something exactly when it cannot be undone. |
| `UndoLoss.LostIs` | src/main.cpp:1526-1546 | The records that the inputs of a transaction lose, told from before and after: an output is gone that does not survive storing, or the record is gone and its metadata is not kept. |
| `UndoLoss.LostInBlockIs` | src/main.cpp:1454-1548 | The same for a block, for every record that no transaction of the block makes anew. |
| `UndoLoss.NoLoss` | src/main.cpp:1526-1546 | Without coinstakes, records at height zero, negative versions and amounts that overflow when compressed, a transaction loses nothing. |
| `UndoLoss.NoLossInBlock` | src/main.cpp:1454-1548 | Nor does a block. |
| `UndoLoss.StoredBlockUndone` | src/main.cpp:1445-1548 | A block connected, its undo data written to bytes and read back, and the block disconnected: the map is as before if and only if no record from before the block is lost. |
| `VarInt.ReadWritten` | src/serialize.h:283-306 | Every number is read back and exactly its bytes are consumed; a negative number of a signed type comes back as its last seven bits. |
| `VarInt.WrittenRead` | src/serialize.h:241-261 | Every number has exactly one encoding. |
| `VarInt.WrittenOrder` | src/serialize.h:241-261 | A larger number is written longer, or with as many bytes that come later in the order of bytes. |
| `VarInt.WrittenBits` | src/serialize.h:283-293 | Exactly the last byte has its top bit clear. |
| `VarInt.KnownNumbers` | src/serialize.h:257-262 | The encodings of eleven numbers. |
| `VarInt.BufferFits` | src/serialize.h:284 | The temporary buffer is large enough for every number of its type. |
| `VarInt.Write` | src/serialize.h:283-293 | The two loops give the specified bytes. |
| `VarInt.ReadFrom` | src/serialize.h:295-306 | The loop reads as specified, and fails where the stream ends. |
| `Amounts.DecompressCompress` | src/compressor.cpp:133-172 | Decompression undoes compression. |
| `Amounts.CompressDecompress` | src/compressor.cpp:133-172 | Compression undoes decompression, so both are bijections. |
| `Amounts.CompressedBound` | src/compressor.cpp:133-149 | A compressed amount is at most nine times the amount, and fits 64 bits for all money. |
| `Amounts.CompressedIs` | src/compressor.cpp:124-149 | An amount of e zeros, a digit d before them and a rest n is compressed to 1 + 10 (9 n + d - 1) + e, and with nine zeros to 1 + 10 (n - 1) + 9. |
| `Amounts.KnownAmounts` | src/compressor.cpp:124-149 | The compressed forms of six round amounts. |
| `Amounts.ComesBack` | src/compressor.cpp:133-172 | In 64-bit arithmetic every signed amount comes back whose compressed form does not overflow. |
| `Amounts.MoneyComesBack` | src/compressor.cpp:133-172 | All money is among them. |
| `Amounts.Compress` | src/compressor.cpp:133-149 | The loop in 64-bit arithmetic gives the specified number, for negative amounts too; the digit it asserts is not zero. |
| `Amounts.Decompress` | src/compressor.cpp:151-172 | The loop in 64-bit arithmetic gives the specified signed amount. |
| `Scripts.Compress` | src/compressor.cpp:16-73 | A compressed script starts with a code below six that fixes its length. |
| `Scripts.FirstByte` | src/compressor.cpp:45-73 | The first byte is 0 exactly for a key hash, 1 for a script hash, 2 or 3 for a short key, whose own first byte it is, and 4 or 5 for a long one, by its parity. |
| `Scripts.DecompressCompress` | src/compressor.cpp:45-122 | Decompression gives back every script that compresses. |
| `Scripts.ReadWritten` | src/compressor.h:71-94 | Every script, compressed or not, is read back whatever follows it. |
| `CoinsCodec.BitOfByte` | src/coins.h:192-216 | A bit of a mask byte is the availability of its output. |
| `CoinsCodec.TrimZerosIs` | src/coins.cpp:16-32 | The mask stops at its last byte that is not zero, and trimming loses no such byte. |
| `CoinsCodec.ReadMaskWritten` | src/coins.h:210-221 | Counting bytes that are not zero, the reader stops at the last byte written. |
| `CoinsCodec.AvailableIs` | src/coins.h:204-221 | The availability the reader ends with is that of the outputs, and none beyond it is available. |
| `CoinsCodec.OutReadWritten` | src/compressor.h:110-121 | An output is read back with its script, its amount as 64 bits bring it back, and the initial rounds, which are not stored. |
| `CoinsCodec.OutsReadWritten` | src/coins.h:196-227 | The outputs are read back, each in its place. |
| `CoinsCodec.NotPrunedShows` | src/coins.h:182 | The assertion of Serialize holds for every record that is not pruned. |
| `CoinsCodec.HeaderOfCode` | src/coins.h:183-215 | The header code has the coinbase, the coinstake and the first two outputs in its four low bits, in this order, and the reader finds there what the writer put in. |
| `CoinsCodec.UnserializeSerialized` | src/coins.h:177-234 | Reading what was written gives the record as stored and consumes exactly the bytes written, for every record that is not pruned. |
| `CoinsCodec.StoredSame` | src/coins.h:177-234 | The record as stored is the record itself exactly when it is cleaned up, its integers are not negative, and every output survives on its own. |
| `CoinsCodec.VersionIsLost` | src/main.cpp:1505-1510 | A negative version comes back as another one; DisconnectBlock allows for it where it looks at the outputs of the block. |
| `CoinsCodec.OrdinaryStored` | src/coins.h:177-234 | A record whose amounts do not overflow when compressed, whose rounds are the initial ones and whose integers are not negative comes back the same. |
| `CoinsStream.CalcMaskSize` | src/coins.cpp:16-32 | The length of the mask and its number of bytes that are not zero. |
| `CoinsStream.AllSpent` | src/coins.cpp:19-25 | Whether a byte of the mask is zero. |
| `CoinsStream.AvailByte` | src/coins.h:189-194 | The byte of the mask. |
| `CoinsStream.WriteMask` | src/coins.h:188-195 | The mask. |
| `CoinsStream.WriteOuts` | src/coins.h:196-199 | The outputs that are not spent. |
| `CoinsStream.HeaderCode` | src/coins.h:180-184 | The header code. |
| `CoinsStream.Serialize` | src/coins.h:177-202 | The bytes are those specified. |
| `CoinsStream.ReadMaskFrom` | src/coins.h:217-225 | Reads the mask, or fails where the stream ends. |
| `CoinsStream.ReadOuts` | src/coins.h:226-230 | Reads the outputs that are available. |
| `CoinsStream.Unserialize` | src/coins.h:204-234 | Reads the record, or fails where the stream ends. |
| `CheckQueue.BatchSize` | src/checkqueue.h:99-104 | A batch has at least one check, at most those queued and at most the configured size. |
| `CheckQueue.BatchShare` | src/checkqueue.h:99-104 | A batch is the share of one thread of the queue: no more unless it is one check, and all of it unless the configured size is smaller. |
| `CheckQueue.AlwaysSane` | src/checkqueue.h:71-104 | Under the invariant no counter goes below zero: the unsigned count of checks still to do is at least the batch that is reported, and a thread that wakes up was counted idle. |
| `CheckQueue.AddKeeps` | src/checkqueue.h:143-154 | Adding checks keeps the invariant for the longer round. |
| `CheckQueue.ExecuteKeeps` | src/checkqueue.h:115-118 | Executing a batch outside the lock keeps the invariant. |
| `CheckQueue.ContinueKeeps` | src/checkqueue.h:84-114 | Every way through the critical section keeps the invariant, and the master returning ends the round. |
| `CheckQueue.NextKeeps` | src/checkqueue.h:64-161 | Every step of every thread keeps the invariant: checks still to do are those queued plus those in flight, and a failure once seen shows. |
| `CheckQueue.RunKeeps` | src/checkqueue.h:64-161 | Every interleaving of one master and any number of workers keeps the invariant. |
| `CheckQueue.WaitIsRight` | src/checkqueue.h:85-93 | Wait returns true exactly when every check added in its round passes. |
| `CheckQueue.IdleBetweenRounds` | src/checkqueue.h:158-161 | With nothing added since the last Wait the queue is idle. |
| `CheckQueue.IdleInRuns` | src/checkqueue.h:168-196 | In every run the queue is idle at the start of each round. |
| `CheckQueue.NeverStuck` | src/checkqueue.h:85-98 | While the master waits, a wake-up is pending or some thread has a batch. |
| `CheckProgress.WorkGoesDown` | src/checkqueue.h:64-161 | No step but an addition makes more work, and every evaluation or report of a batch makes less. |
| `CheckProgress.WorkBound` | src/checkqueue.h:64-161 | There is no more work than two steps for each check to be done. |
| `CheckProgress.DoneReturns` | src/checkqueue.h:85-98 | When all work is done the waiting master has been notified, and waking up ends its Wait. |
| `CheckProgress.BoundedWork` | src/checkqueue.h:64-161 | In every run, while nothing is added, there are at most two evaluations or reports for each check that was to be done. |
| `CheckProgress.AddWakes` | src/checkqueue.h:143-154 | After more than one check is added no worker waits without a notification; after one, the worker chosen does not, and no other thread is touched. |
| `CheckProgress.InterruptWakes` | src/checkqueue.h:130-139 | After an interruption no thread waits without a notification. |
| `CheckProgress.QuitLeaves` | src/checkqueue.h:85-93 | Once interrupted, with nothing to do, every thread that waits can wake up and leave the loop. |
| `CheckProgress.WakeTakes` | src/checkqueue.h:94-111 | While checks are queued, every thread that waits can wake up; it takes some of them from the end, and the rest stay, and it knows whether one has failed already. |
| `CheckProgress.LeavesOnly` | src/checkqueue.h:85-93 | A worker leaves only after an interruption with nothing left to do, and the master only with nothing left to do. |
| `CheckQueue.EvaluateBatch` | src/checkqueue.h:115-118 | Evaluating with short-circuit says whether all passed. |
| `CheckQueue.TakeBatch` | src/checkqueue.h:105-111 | Takes the checks from the end of the stack. |
| `Denominations.ZerocoinChain` | src/libzerocoin/Denominations.h:19-33 | The denominations ascend and each divides the next. |
| `Denominations.GreedyBounds` | src/denomination_functions.cpp:35-56 | The greedy selection stays within what is held and does not exceed the target. |
| `Denominations.ExactPart` | src/denomination_functions.cpp:35-56 | Coins worth at least a multiple of every denomination among them contain coins worth exactly that. |
| `Denominations.Exchange` | src/denomination_functions.cpp:35-56 | The exchange step behind the greedy selection. |
| `Denominations.GreedyIsBest` | src/denomination_functions.cpp:35-56 | Whatever can be met exactly, greedy meets exactly, with the fewest coins. |
| `CoinChange.ChangeValue` | src/denomination_functions.cpp:61-79 | Change is the amount rounded down to the smallest denomination, and nothing for a negative amount. |
| `CoinChange.ChangeIsBest` | src/denomination_functions.cpp:61-79 | No other coins make the same change with fewer of them. |
| `CoinChange.OwnMeets` | src/denomination_functions.cpp:323-338 | The own pass of calculateChange reaches the target unless it uses everything. |
| `CoinChange.OwnExact` | src/denomination_functions.cpp:221-244 | When nothing tops up the selection below the target, the own pass does not overshoot. |
| `CoinChange.OwnTight` | src/denomination_functions.cpp:323-338 | Without one of its smallest coins the own pass does not reach the target. |
| `CoinSelection.GetSpendCoins` | src/denomination_functions.cpp:35-56 | The loops compute the greedy selection. |
| `CoinSelection.GetChange` | src/denomination_functions.cpp:61-79 | The loops compute the greedy change. |
| `CoinSelection.TakeFromList` | src/denomination_functions.cpp:95-102 | Going through the list takes as many mints of a denomination as greedy would. |
| `CoinSelection.GetIdealSpends` | src/denomination_functions.cpp:85-105 | True exactly when some unused mints are worth the target; then the selection is exact and has the fewest coins. |
| `CoinSelection.PickPass` | src/denomination_functions.cpp:115-125 | One pass takes the first unused mints of a denomination. |
| `CoinSelection.PickRounds` | src/denomination_functions.cpp:114-125 | The passes for one denomination pick as many mints as asked for, going through the list again if it is too short. |
| `CoinSelection.GetSpends` | src/denomination_functions.cpp:110-127 | Returns the mints picked, worth what they are reported to be, and terminates whenever the list has an unused mint of every denomination asked for; beyond the list it picks the same mints again. |
| `CoinSelection.PickedRange` | src/denomination_functions.cpp:110-127 | Only unused mints of known denominations are picked. |
| `CoinSelection.PickedCounts` | src/denomination_functions.cpp:110-127 | As many of each denomination are picked as asked for. |
| `CoinSelection.PickedFromList` | src/denomination_functions.cpp:110-127 | No mint is picked more often than it is in the list. |
| `ChangePlans.CountCoins` | src/denomination_functions.cpp:13-17 | The number of coins. |
| `ChangePlans.HighestHeld` | src/denomination_functions.cpp:180-190 | The highest denomination held below a limit. |
| `ChangePlans.BelowPass` | src/denomination_functions.cpp:206-219 | The first pass of minimizeChange is the greedy selection below the target. |
| `ChangePlans.TopUp` | src/denomination_functions.cpp:221-233 | The second pass, as specified. |
| `ChangePlans.ToppedIs` | src/denomination_functions.cpp:221-233 | It adds one coin if one is worth more than what remains, and then the target is covered; otherwise there is none. |
| `ChangePlans.RemoveOverlap` | src/denomination_functions.cpp:244-256 | The third pass takes out exactly the coins that would come back as change. |
| `ChangePlans.Rework` | src/denomination_functions.cpp:192-256 | The three passes come to the specified amount. |
| `ChangePlans.Reworks` | src/denomination_functions.cpp:192-260 | That amount can be met exactly from what is held, and it covers the target exactly when the first pass could be topped up. |
| `ChangePlans.NothingBack` | src/denomination_functions.cpp:221-265 | What the alternative spends and what it gets back, in as many coins as its change, have no denomination in common. |
| `ChangePlans.RespendReworked` | src/denomination_functions.cpp:258-260 | The greedy re-selection meets the amount found. |
| `ChangePlans.MinimizeChange` | src/denomination_functions.cpp:192-275 | The alternative is taken exactly when it needs fewer coins of change and is within the limit, and otherwise everything stays; it covers the target exactly when the first pass could be topped up. |
| `ChangePlans.NothingToTopUp` | src/denomination_functions.cpp:192-275 | A holding of one smallest coin, exactly the target, for which minimizeChange alone comes to nothing. |
| `ChangePlans.OwnOrTopUp` | src/denomination_functions.cpp:323-348 | When it could not be topped up, the plan it replaces had no change to save. |
| `ChangePlans.PlanBalances` | src/denomination_functions.cpp:282-360 | The value of a plan is the target plus the value of its change. |
| `ChangePlans.OneCoin` | src/denomination_functions.cpp:298-320 | With one coin that is enough, the plan covers the target and its change is at most that coin's; the alternative replaces that coin exactly when it is to be minimized and is preferred. |
| `ChangePlans.SeveralCoins` | src/denomination_functions.cpp:322-359 | With several coins, the plan covers the target whenever the holding does, and its change is at most that of the own pass; the alternative replaces the own pass exactly when it is preferred and either the change is to be minimized or it needs no more coins. |
| `ChangePlans.CalculateChange` | src/denomination_functions.cpp:282-360 | On every branch the coins are held, cover the target if the holding does and are everything otherwise, and the result is the number of coins in the greedy change; for a whole number of the smallest coin the value selected is the target plus that change. Unless change is to be minimized, one coin that is enough is spent alone and otherwise no more coins than by the own pass; if it is, no alternative within the limit has less change. |
| `ChangePlans.LimitKept` | src/denomination_functions.cpp:366-398 | A plan is within the limit on spends exactly when its first plan is, or the alternative is preferred to it. |
| `ChangePlans.LimitIsExceeded` | src/denomination_functions.cpp:366-398 | Two coins of five are spent on a target of six, though the limit is one. |
| `ChangePlans.SelectMints` | src/denomination_functions.cpp:366-398 | The mints come from the list, unused and each once; an exact selection has the fewest coins; with change the value exceeds the target, the change coins are counted, the flag decides between coins and change as for calculateChange, and the limit is kept exactly when the plan keeps it; when no exact selection exists and the holding covers the target, there is one with change. |
| `Base58.TablesAgree` | src/base58.cpp:15-33 | The two tables are inverse to each other. |
| `Base58.AlphabetRises` | src/base58.cpp:15 | The alphabet is in ascending order. |
| `Base58.AlphabetIs` | src/base58.cpp:15-33 | It consists of the digits and the letters of both cases, without 0, I, O and l. |
| `Base58.RecodeTwice` | src/base58.cpp:35-122 | Changing the base and back gives the digits there were, leading zeros included. |
| `Base58.EncodeFits` | src/base58.cpp:93-95 | The buffer of the encoder holds every number it is given. |
| `Base58.DecodeFits` | src/base58.cpp:47-49 | The buffer of the decoder holds every number it is given. |
| `Radix.MulAdd` | src/base58.cpp:97-110 | The carry loop multiplies and adds in place and leaves no carry. |
| `Base58.Encode` | src/base58.cpp:84-122 | The text has a one for each leading zero byte and then the digits of the number. |
| `Base58.DecodeRun` | src/base58.cpp:40-80 | Converts up to a space or the first character that is not in the alphabet. |
| `Base58.Decode` | src/base58.cpp:35-82 | Accepts exactly texts in the alphabet with space around them, and returns their bytes. |
| `Base58.DecodeEncode` | src/base58.cpp:35-122 | Decoding an encoding gives the bytes back, for every byte string. |
| `Base58.EncodeDecode` | src/base58.cpp:35-122 | Encoding what a text stands for gives the text back, for every text in the alphabet. |
| `Base58.AcceptsEncodings` | src/base58.cpp:35-82 | A text is accepted exactly when, without the space around it, it is the encoding of some bytes. |
| `Base58.EncodeCheck` | src/base58.cpp:134-141 | The encoding of the bytes and the first four of their hash. |
| `Base58.DecodeCheck` | src/base58.cpp:143-158 | Accepts exactly the texts that encode some bytes with their checksum, and returns those bytes. |
| `Base58.DecodeString` | src/base58.cpp:129-132 | A string is read up to its first NUL. |
| `ArithUint.BaseUint.constructor` | src/arith_uint256.h:26-28 | The number zero. |
| `ArithUint.BaseUint.Copy` | src/arith_uint256.h:30-32 | The same limbs. |
| `ArithUint.BaseUint.Add` | src/arith_uint256.h:106-114 | The sum modulo two to the number of bits, also when both operands are the same object. |
| `ArithUint.BaseUint.Complement` | src/arith_uint256.h:54-58 | The largest number less this one. |
| `ArithUint.BaseUint.Increment` | src/arith_uint256.h:139-144 | One more, modulo two to the number of bits. |
| `ArithUint.BaseUint.Decrement` | src/arith_uint256.h:153-158 | One less, modulo two to the number of bits. |
| `ArithUint.BaseUint.Negate` | src/arith_uint256.h:60-65 | The negative, modulo two to the number of bits. |
| `ArithUint.BaseUint.Subtract` | src/arith_uint256.h:116-119 | The difference modulo two to the number of bits. |
| `ArithUint.BaseUint.MulWord` | src/arith_uint256.cpp:52-60 | The product with a word, modulo two to the number of bits; no intermediate exceeds 64 bits. |
| `ArithUint.BaseUint.AddRow` | src/arith_uint256.cpp:66-72 | A row of the product, up to what is carried out. |
| `ArithUint.BaseUint.Multiply` | src/arith_uint256.cpp:62-74 | The product modulo two to the number of bits, no intermediate exceeding 64 bits; a number multiplied by itself in place comes to zero. |
| `ArithUint.BaseUint.ShiftLeft` | src/arith_uint256.cpp:28-38 | The product with a power of two, modulo two to the number of bits, for every shift. |
| `ArithUint.BaseUint.ShiftRight` | src/arith_uint256.cpp:40-50 | The floor of the quotient by a power of two, for every shift. |
| `ArithUint.BaseUint.CompareTo` | src/arith_uint256.cpp:99-105 | The order of the numbers. |
| `ArithUint.BaseUint.Bits` | src/arith_uint256.cpp:130-140 | The position of the highest bit set plus one, or zero. |
| `ArithUint.BaseUint.DecideBit` | src/arith_uint256.cpp:87-93 | One round of the long division keeps dividend = quotient times divisor + rest, with the rest below the shifted divisor. |
| `ArithUint.BaseUint.Divide` | src/arith_uint256.cpp:76-97 | The floor quotient, with the exact remainder left over; division by zero is refused after the number has been cleared. |
| `LimbShifts.OrDisjoint` | src/arith_uint256.cpp:34-36 | Bits that do not overlap add up under bitwise or. |
| `LimbShifts.SetBit` | src/arith_uint256.cpp:90 | Setting a bit of the quotient adds that power of two. |
| `Compact.CompactedTarget` | src/arith_uint256.h:229-248 | Reading a compact form back keeps exactly the leading bytes of the number and is neither negative nor larger. |
| `Compact.CompactedStable` | src/arith_uint256.cpp:176-212 | Writing again what was read back changes nothing. |
| `Compact.CompactedMonotone` | src/arith_uint256.cpp:192-212 | The compact form keeps the order. |
| `Compact.OverflowIsExact` | src/arith_uint256.cpp:187-188 | The overflow flag is set exactly when the number does not fit 256 bits. |
| `Compact.CanonicalRoundTrip` | src/arith_uint256.cpp:176-212 | A compact form survives being read into 256 bits and written again exactly when it is canonical and does not overflow. |
| `Compact.OverflowIsLost` | src/arith_uint256.cpp:176-212 | A canonical form that overflows: it does not survive. |
| `Compact.KnownTarget` | src/arith_uint256.cpp:176-190 | The numbers that two compact forms stand for. |
| `Compact.UnboundedRoundTrip` | src/arith_uint256.cpp:176-212 | Read without a limit on its size, exactly the canonical forms survive. |
| `Compact.Assign` | src/arith_uint256.h:69-74 | The number assigned. |
| `Compact.Low64` | src/arith_uint256.h:214-217 | The number modulo 2^64. |
| `Compact.SetCompact` | src/arith_uint256.cpp:176-190 | The number modulo 2^256, with the sign and overflow flags exact. |
| `Compact.TopBytes` | src/arith_uint256.cpp:194-200 | The leading three bytes. |
| `Compact.GetCompact` | src/arith_uint256.cpp:192-212 | The compact form of the number, with the sign bit exactly for a negative number other than zero; both assertions hold. |
| `BlockTree.InvertIs` | src/main.cpp:3130-3131 | Clearing the lowest bit that is set gives a smaller number. |
| `BlockTree.SkipsBack` | src/main.cpp:3133-3141 | A block skips to a lower height. |
| `BlockTree.StepDown` | src/main.cpp:3148-3160 | Every step of the walk leaves fewer digits in which the heights differ, or as many and less to clear. |
| `BlockTree.FuelBound` | src/main.cpp:3148-3160 | The measure of a walk is quadratic in the number of digits of its height. |
| `BlockTree.BlockIndex.constructor` | src/main.cpp:2586-2590 | A new block has its height and the skip link that BuildSkip gives it. |
| `BlockTree.BlockIndex.GetAncestor` | src/main.cpp:3143-3162 | Following skip links finds the ancestor that walking back would, and nothing outside the heights there are, in at most 4 (n + 1)^2 steps where n is the number of binary digits of the height. |
| `BlockTree.LastCommonAncestor` | src/main.cpp:305-322 | The highest common ancestor, or none if the trees do not meet; the assertion holds. |
| `ActiveChain.Chain.SetTip` | src/chain.cpp:15-25 | The early stop leaves what a full rebuild would. |
| `ActiveChain.Chain.FindFork` | src/chain.cpp:52-56 | The highest block of the chain that is an ancestor of the given one. |
| `ActiveChain.Chain.GetLocator` | src/chain.cpp:27-50 | The entries are the ancestors of the start at exponentially growing distances, ending with genesis. |
| `ActiveChain.LocatorShape` | src/chain.cpp:27-50 | A locator begins at its start, goes down strictly, ends at genesis, and is logarithmic in the height. |
| `ActiveChain.Chain.ContainsIffAncestor` | src/chain.h:470-471 | A block is contained exactly when it is an ancestor of the tip. |
| `ActiveChain.Chain.NextLinksBack` | src/chain.h:473-479 | The successor of a block is the contained block that links back to it; only the tip and blocks outside have none. |

## Left out

- Networking, wallet, RPC, start-up, databases and files: plumbing around foreign libraries.
- `Select_`, `GetChance` and block progress estimates: floating point and termination with probability one only.
- Hash functions, random numbers and clocks: parameters of the models, with ranges only.
- Elliptic-curve arithmetic: validity and decompression of keys are parameters, assumed inverse on valid keys.
- `GetSerializeSize` of coin records: it disagrees with `Serialize` about the header, so their agreement is not a theorem.
- `GetBlockTrust` and the moving average of `blockaverage.h`: what they are meant to state does not hold as written.
- Widths of counters, heights and sizes are not modelled (`nIdCount`, `nTodo`, `nHeight`, vector sizes); widths are modelled where the code relies on them (limbs, words, compact forms, bytes, the heights in undo records).
- AddrManCheck.Check: says yes or no, not which of the error codes; the source's loop also adds missing addresses to the address map while it looks them up; the model looks up without adding.
- AddrManRuns.Lookup: the manager is keyed by network address without port, as `mapAddr` is.
- AddrManLoad.Unserialize: reads into a freshly constructed manager only, since `Clear` leaves the entry and address maps as they are; it builds the tables as maps, not as the arrays of `AddrManTables`.
- CoinsViews.CoinViews.ModifyCoins: the scope of a modifier is one step; two modifiers open at once, which the source forbids by an assertion, cannot be written.
- CoinsUndo.BlockUndone: transactions are new when they are connected, and heights are those of blocks, below 2^30; the rules of the network see to both. The comparison that only reports a mismatch is not modelled.
- UndoCodec.BlockReadWritten: the counts in front of the lists of undo records, and the checksum of the file, are not part of the bytes.
- CoinsCache.FlushKeeps: a cache is not flushed while one above it holds entries; the same holds for modifications.
- Scripts.Compress: written on values, as are `Scripts.Decompress` and the framing; the buffers the source fills are not modelled.
- VarInt.ReadFrom: a stream whose number exceeds the width of the type read into is not modelled.
- CoinSelection.GetSpends: asks for no denomination of which the list has no unused mint; the source would then go round for ever.
- ChangePlans.SelectMints: the holding passed in is the one that the list amounts to, as its caller computes it.
- CheckQueue.RunKeeps: destruction of the queue and exceptions thrown by checks are not modelled.

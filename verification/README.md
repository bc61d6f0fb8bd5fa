# Proofs about the data structures and codecs of the Zumy node

Zumy is a Bitcoin- and Dash-derived node. This project models the parts of it in which a
mistake is easy to make and hard to see: data structures that must keep several views of the
same facts in agreement, a cache that forgets instead of writing, a locking protocol, limb
arithmetic, and codecs that have to be exact inverses. `dafny verify dfyconfig.toml` checks
everything.

Each part has the same build. Code that changes things in place is a class or a method with
the source's own fields, buffers and loops, and its contract ties the new state to a function
of the old one. The properties are lemmas about those functions: invariants over every run,
agreement with a simpler description of the same thing, round trips. The files named Laws,
with AddrManLayout, AddrManKept and CodecExamples, say what the shared functions mean without
using their definitions: in the numbers of the protocol, in documented formulas, and in the
examples of the documentation and the unit tests.

| part | files | main results |
|---|---|---|
| Peer address table | AddrMan*.dfy | Every run keeps the invariant that `Check_` looks for, and what `Check_` tests is, times and key apart, exactly that invariant, wherever ids are below the counter and `mapAddr` knows the addresses of the entries and no others; the five structures together are an address book (address to profile and place), and every operation on them is an operation on the book; what one address range tells about fits 64 of the 1024 new buckets and takes nothing from the others; what Add_, Good_ and the rest do to every single address is said in seconds, cells and counts; a serialized manager is read back as the same book, and any stream without an address twice is read as a consistent one |
| UTXO cache stack | CoinsTypes, CoinsView, CoinsCache, CoinsRuns, CoinsLaws, CoinsClass | Any run of calls on any stack of caches, on its top or below it, is the run of the same calls on plain maps; the usage counter is exact and never underflows; `ModifyNewCoins` is right if and only if nothing unspent lies below and any entry already cached is empty |
| Check queue | CheckQueue, CheckQueueRuns, CheckQueueLaws | Under every interleaving `Wait` returns the conjunction of exactly the checks added since it last returned; the last worker's wake-up is not lost; `Wait` returns after boundedly many working steps, and so under every fair schedule |
| 256-bit arithmetic | Numbers, ArithLimbs, ArithUint, ArithCompact, ArithLaws | Every operator is the integer operation modulo 2^256, except that multiplying a number by itself in place gives zero; division is exact, and the compact form rounds down by less than one part in 2^15, re-encodes to itself, keeps the order and gives back the sign |
| Block index and chain | ChainHeights, ChainWalk, ChainLaws, Chain | The skip-pointer walk is the naive walk and takes at most as many steps as the square of the number of bits of the height; `SetTip` is right in spite of its early exit; the fork found is the highest common block; locators are logarithmically short |
| Base58 | Radix, Base58Spec, Base58Sizes, Base58Laws, Base58 | Decoding and encoding are inverse, and the fixed-ratio buffers are never too small |
| Coins codec | CodecVarInt, CodecAmount, CodecScript, CodecMask, CodecCoins, CodecLaws, CodecExamples, CodecCoinsIO | Serialized coins are read back if and only if they are trimmed and neither version nor height is negative; the announced size is the size written; amount compression is a bijection without overflow for valid amounts; every number has exactly one variable-length encoding, the one with the documented sum |
| Mnemonics | Bip39Spec, Bip39Exact, Bip39Laws, Bip39 | `Check` accepts exactly the sentences of 16, 24 and 32 bytes; `FromData` also makes sentences of 20 and 28 bytes, which `Check` refuses |
| Rolling bloom filter | Bloom, BloomRolling, BloomLaws | The last nElements keys are always contained, across both clears and the wrap of the counter |
| InstantSend locks | InstantSend, InstantSendTable, InstantSendLaws | After any run every locked outpoint belongs to a live candidate with ten different masternodes on each of its inputs, all of which voted in that run; no two transactions with a common input are ever locked, unless something expires in between |

What the environment supplies is a parameter: hashes are arbitrary functions of what the
source hashes, a random draw is an arbitrary number reduced as the source reduces it, the
clock is a number, the range of an address is any function of it, the curve library is a pair of functions with two laws (decompressing a
compressed valid key gives it back, and always gives 65 bytes), and what the mempool and the
block chain answer is a flag.

Where the code does not do what its documentation says, the model follows the code:

- A coins record with a negative transaction version is not read back. The single-byte test of
  the variable-length integers is true of every negative number, so -1 comes back as 127
  (`CoinsCodec.NegativeVersionLost`; the exact condition is `CoinsCodec.RoundTripIff`).
- `Flush` can lose the best block of a stack, when a cache that never learnt its best block is
  flushed into one that has (`CoinsCache.FlushLosesBestBlock`; the exact condition is
  `CoinsCache.FlushKeepsBestBlockIff`).
- `CheckAndRemove` releases the inputs of an expired candidate whoever holds them, so it can
  take the lock from a transaction that has not expired (`InstantSend.ExpiryTakesLock`, a run
  from the empty table; the exact condition is `InstantSend.ExpiryKeepsIff`).
- `x *= x` leaves zero, because the product is built in the number it is read from. That is the
  square modulo 2^256 exactly for the multiples of 2^128 (`ArithUint.BaseUint.MulAssign`,
  `ArithUint.SquareVanishesIff`), and so not for 1 (`ArithUint.OneTimesItself`).
- `operator/=` has set the number to zero when it finds the divisor to be zero
  (`ArithUint.BaseUint.DivAssign`).
- `Check_` does not look at the id counter, and looks `mapAddr` up for the entries only, where a
  missing address counts as id 0. What it tests is the invariant for tables whose ids are below
  the counter and whose `mapAddr` knows exactly the addresses of the entries
  (`AddrCheck.SoundIsInv`). Otherwise it may pass a broken table: it does not notice an
  address left over in `mapAddr` (`AddrCheck.LeftOverIsSound`), nor that of entry 0 missing
  there, which its own look-up enters (`AddrCheck.MissingZeroIsSound`; no other entry can be
  missing, `AddrCheck.MissingIsZero`), nor a counter that is too low (`AddrCheck.LowCounterIsSound`).
- `Clear` of the address manager leaves `mapInfo` and `mapAddr` alone. The cleared manager
  satisfies the invariant if and only if both were empty (`AddrOps.ClearKeepsIff`), so not after
  a single address was added (`AddrOps.ClearBreaks`). `Unserialize` begins with it, so reading into
  a manager that holds an id the stream does not number never gives a consistent one
  (`AddrRoundTrip.ReadOverSpoils`).
- The documentation of the variable-length integers gives three bytes for 16511 and `82 FD 7F`
  for 65535. The code writes `FF 7F` and `82 FE 7F` (`CodecLaws.KnownVarInts`,
  `CodecLaws.LongVarInts`), as the documented sum demands.
- `Unserialize` accepts a stream in which an address occurs twice, and can then end in a manager
  that does not satisfy the invariant (`AddrKept.TwiceIsInconsistent`). Without one, the manager
  is consistent if and only if the count of tried entries was not negative
  (`AddrReading.ReadingIsConsistent`).
- A negative time penalty can move a stored time backwards, beyond 32 bits
  (`AddrLaws.KnownTimeFallsIff`).

## Model

| member | source | states |
|---|---|---|
| AddrOps.StepKeeps | src/addrman.cpp:91-334 | Every operation (Add, Good, Attempt, Connected, GetAddr) keeps the whole invariant: mapAddr inverts mapInfo, vRandom back-pointers match, reference counts are the number of cells and at most 8, every tried entry sits in exactly its home cell, no entry is in neither table, and nNew and nTried count the two populations |
| AddrOps.Run | src/addrman.cpp:91-334 | The state after any sequence of operations satisfies the invariant |
| AddrOps.InitInv | src/addrman.h:447-470 | A newly constructed manager satisfies the invariant |
| AddrOps.ClearKeepsIff | src/addrman.h:447-465 | A cleared manager satisfies the invariant if and only if both maps were empty: a consistent one, if and only if it had no address |
| AddrOps.ClearBreaks | src/addrman.h:447-465 | After Add_ of any routable address to an empty manager and Clear, the invariant does not hold |
| AddrOps.StepKeepsKey | src/addrman.cpp:91-334 | No operation changes the bucket key or the environment |
| AddrSteps.CreateStep | src/addrman.cpp:91-101 | Create adds one unreferenced entry under a fresh id and keeps every part of the invariant but the count |
| AddrSteps.SwapPositions | src/addrman.cpp:103-121 | Swapping two positions of vRandom keeps the back-pointers and changes no entry otherwise |
| AddrSteps.SwapStep | src/addrman.cpp:103-121 | SwapRandom keeps the structural invariant and both populations |
| AddrSteps.DeleteStep | src/addrman.cpp:123-135 | Deleting an unreferenced entry keeps the structure; every other entry survives unchanged except for its position |
| AddrSteps.UnrefStep | src/addrman.cpp:141-145 | Emptying a cell takes one reference from its holder, which had one, and makes it an orphan exactly when that was the last |
| AddrSteps.ClearNewStep | src/addrman.cpp:137-150 | ClearNew empties the cell, deletes its holder exactly when it had no other reference, and keeps the structure |
| AddrSteps.PutNewStep | src/addrman.cpp:304-307 | Entering an entry in a free cell and raising its count keeps the structure |
| AddrSteps.DropStep | src/addrman.cpp:155-161 | The bucket loop of MakeTried removes the entry from exactly the buckets passed so far |
| AddrSteps.DropAll | src/addrman.cpp:154-164 | After the bucket loop the entry holds no cell and its reference count is zero, as asserted |
| AddrSteps.DemoteStep | src/addrman.cpp:173-180 | Taking an entry out of its tried cell keeps the structure and makes it an orphan |
| AddrSteps.PromoteStep | src/addrman.cpp:195-197 | Putting an orphan into its free home cell keeps the structure |
| AddrOps.VacateStep | src/addrman.cpp:154-162 | Leaving the new table keeps the structure, with the entry as the one orphan |
| AddrOps.MakeRoomStep | src/addrman.cpp:183-186 | Clearing the home cell of an evicted entry keeps the structure and the orphans |
| AddrOps.EvictTriedStep | src/addrman.cpp:171-192 | Eviction moves one entry from tried to its home cell in the new table and keeps the structure |
| AddrOps.MakeRoomInTriedStep | src/addrman.cpp:166-193 | After making room the tried cell is free, as asserted, and the entry to be moved is still there |
| AddrOps.MakeTriedKeeps | src/addrman.cpp:152-198 | MakeTried keeps the invariant |
| AddrOps.UntriedIsInSomeBucket | src/addrman.cpp:226-241 | An entry that is not tried is found in some new bucket whatever bucket the search starts from, so Good_ never bails out there |
| AddrOps.GoodKeeps | src/addrman.cpp:200-247 | Good_ keeps the invariant |
| AddrOps.InsertKeeps | src/addrman.cpp:293-313 | Placing an entry restores the invariant, whichever way it goes |
| AddrOps.RegisterStep | src/addrman.cpp:286-291 | Creating an entry for an unknown address leaves it as the only orphan |
| AddrOps.RefsBounded | src/addrman.cpp:276-278 | No entry has more than eight references |
| AddrOps.AddKeeps | src/addrman.cpp:249-315 | Add_ keeps the invariant |
| AddrOps.GetAddrRound | src/addrman.cpp:468-479 | A round of GetAddr_ keeps vRandom and its back-pointers consistent |
| AddrOps.GetAddrMoves | src/addrman.cpp:461-480 | GetAddr_ changes nothing but positions in vRandom |
| AddrOps.GetAddrStopped | src/addrman.cpp:469-470 | Once the quota is reached further rounds change nothing |
| AddrOps.GetAddrKeeps | src/addrman.cpp:461-480 | GetAddr_ keeps the invariant |
| AddrOps.AttemptKeeps | src/addrman.cpp:317-334 | Attempt_ keeps the invariant |
| AddrOps.ConnectedKeeps | src/addrman.cpp:482-500 | Connected_ keeps the invariant |
| AddrBook.GoodOnBook | src/addrman.cpp:200-247 | Good_ on the tables is promotion in the address book: the entry moves to tried, an entry in its way goes back to its home cell, and an entry whose only cell that was is lost |
| AddrBook.AddOnBook | src/addrman.cpp:249-315 | Add_ on the tables is addition to the address book, and returns true exactly for a routable address not known before; AddrLaws says what an addition does to each address |
| AddrBook.AttemptOnBook | src/addrman.cpp:317-334 | Attempt_ changes the try time and count of exactly the service named |
| AddrBook.ConnectedOnBook | src/addrman.cpp:482-500 | Connected_ changes the time of exactly the service named, if it is older than twenty minutes |
| AddrBook.GetAddrOnBook | src/addrman.cpp:461-480 | GetAddr_ leaves the address book as it is |
| AddrBook.StepOnBook | src/addrman.cpp:200-334 | Every operation on the tables is the operation on the address book, a map from address to profile and place |
| AddrBook.RunOnBook | src/addrman.cpp:200-334 | Every run on the tables is the run on the address book |
| AddrBook.MakeTriedBook | src/addrman.cpp:152-198 | MakeTried on the tables is promotion in the address book |
| AddrBook.EvictBook | src/addrman.cpp:171-192 | Evicting the holder of a tried cell is sending the one address that lives there back to its home cell |
| AddrBook.ClearNewBook | src/addrman.cpp:137-150 | ClearNew on the tables is displacement in the address book: the holder loses the cell, and is forgotten if it was its last |
| AddrBook.DeleteBook | src/addrman.cpp:123-135 | Delete takes exactly that address out of the book |
| AddrBook.CreateBook | src/addrman.cpp:91-101 | Create adds exactly that address to the book, in no cell |
| AddrBook.InsertBook | src/addrman.cpp:293-313 | Placing an entry is insertion in the book |
| AddrBook.CellTest | src/addrman.cpp:296-303 | The test for a cell that may be taken says the same on the tables and on the book |
| AddrBook.AddKnownBook | src/addrman.cpp:258-285 | Add_ of a known address on the tables and on the book agree; AddrLaws.KnownTimeMoves and AddrLaws.KnownCells say what becomes of it |
| AddrBook.AddUnknownBook | src/addrman.cpp:286-291 | Add_ of an unknown address on the tables and on the book agree |
| AddrRuns.RunsPassCheck | src/addrman.cpp:384-458 | Any run with sane times from a consistent manager ends in a sound table with sane times, of which Check_ can complain only for a null key |
| AddrRuns.AddKeepsTried | src/addrman.cpp:249-315 | Adding an address never takes an address out of the tried table |
| AddrRuns.LostByGood | src/addrman.cpp:170-192 | An address lost by marking another good had the home cell of the evicted address as its only cell |
| AddrRuns.GoodLosesAtMostOne | src/addrman.cpp:170-192 | Good_ on a consistent manager loses at most one address |
| AddrRuns.GetAddrReturns | src/addrman.cpp:461-480 | GetAddr_ returns the entries worth returning from the front of the reshuffled vRandom, each once, never more than the quota, and all of them if the quota is not reached |
| AddrRoundTrip.RoundTrip | src/addrman.h:287-440 | Serializing a consistent manager and unserializing into a new one uses up the stream and gives a consistent manager with the same key and the same address book: same profiles, same cells, same tried entries, only the last-try times cleared |
| AddrRoundTrip.ListingIsComplete | src/addrman.h:301-318 | The two entry loops write nNew and nTried entries, every entry once, so the assertions on the counts hold |
| AddrRoundTrip.CountsFit | src/addrman.h:357-363 | The counts of a consistent manager pass the limits checked on reading |
| AddrRoundTrip.HeaderIsRead | src/addrman.h:343-363 | The header is read back and its checks pass |
| AddrRoundTrip.ReadNewUpTo | src/addrman.h:366-383 | Reading the new entries gives the k-th written entry the id k |
| AddrRoundTrip.ReadTriedUpTo | src/addrman.h:385-404 | Reading the tried entries loses none to a collision |
| AddrRoundTrip.CopyHasRoom | src/addrman.h:413-419 | A written cell reference always finds its cell free and its entry below the reference limit |
| AddrRoundTrip.ReadBucketsUpTo | src/addrman.h:406-422 | Reading the bucket lists restores every cell |
| AddrRoundTrip.PruneNothing | src/addrman.h:424-434 | After a complete read there is nothing to prune |
| AddrRoundTrip.ReadBackInv | src/addrman.h:336-440 | What is read back satisfies the invariant |
| AddrCheck.SoundIsInv | src/addrman.cpp:384-458 | The invariant holds if and only if what Check_ tests does, ids are from 0 up to the id counter, and mapAddr knows exactly the addresses of the entries |
| AddrCheck.LeftOverIsSound | src/addrman.cpp:407-408 | An address left over in mapAddr without an entry escapes Check_ |
| AddrCheck.MissingZeroIsSound | src/addrman.cpp:407-408 | In any consistent table with an entry 0, taking that entry out of mapAddr escapes Check_, whose look-up finds and enters id 0 |
| AddrCheck.MissingIsZero | src/addrman.cpp:407-408 | No other entry can be missing from mapAddr unnoticed |
| AddrCheck.LowCounterIsSound | src/addrman.cpp:384-458 | Check_ does not notice a changed id counter; the table stays consistent exactly if the counter is above every id and not negative |
| AddrCheck.TestsAreSound | src/addrman.cpp:384-458 | A table is sound exactly if the size tests, the tests of every entry and the two table passes all succeed |
| AddrCheck.ListedOnce | src/addrman.cpp:410-411 | If every entry stands at its own position and there are as many positions as entries, vRandom lists every entry exactly once |
| AddrCheck.CheckEntry | src/addrman.cpp:392-416 | The tests of one entry of any table: passed, failed by its times alone, or failed by its structure; an address that is not in mapAddr is entered with id 0 by the look-up |
| AddrCheck.CheckEntries | src/addrman.cpp:386-421 | The entry loop of Check_, in any order, on any table: it passes exactly if all entries do, and then has collected exactly the tried ids and the reference counts of the new ones |
| AddrCheck.TriedEnd | src/addrman.cpp:423-435 | If no tried cell was out of order, a tried id is left over exactly if a tried entry is not in its cell |
| AddrCheck.NewEnd | src/addrman.cpp:437-448 | If no new cell was out of order, something is left over exactly if a reference count is wrong |
| AddrManager.CAddrMan.constructor | src/addrman.h:467-470 | A new object is the empty table |
| AddrManager.CAddrMan.Clear | src/addrman.h:447-465 | Clear empties vRandom, both tables and the counters, and leaves mapInfo and mapAddr alone |
| AddrManager.CAddrMan.Find | src/addrman.cpp:78-89 | Finds the id of exactly the known addresses |
| AddrManager.CAddrMan.CreateEntry | src/addrman.cpp:91-101 | In place, what Create does to the state |
| AddrManager.CAddrMan.Swap | src/addrman.cpp:103-121 | In place, what SwapRandom does to the state; its assertions hold |
| AddrManager.CAddrMan.DeleteEntry | src/addrman.cpp:123-135 | In place, what Delete does to the state; its assertions hold |
| AddrManager.CAddrMan.ClearNewCell | src/addrman.cpp:137-150 | In place, what ClearNew does to the state; its assertion holds |
| AddrManager.CAddrMan.LeaveNew | src/addrman.cpp:154-164 | The bucket loop in place; the reference count ends at zero as asserted |
| AddrManager.CAddrMan.Evict | src/addrman.cpp:171-192 | Eviction in place; its assertions hold |
| AddrManager.CAddrMan.EnterTried | src/addrman.cpp:193-197 | The last lines of MakeTried in place |
| AddrManager.CAddrMan.MoveToTried | src/addrman.cpp:152-198 | MakeTried in place, with every assertion, keeping the invariant |
| AddrManager.CAddrMan.FindNewBucket | src/addrman.cpp:226-236 | The bucket search finds none exactly when there is none |
| AddrManager.CAddrMan.GoodAddr | src/addrman.cpp:200-247 | Good_ in place, keeping the invariant |
| AddrManager.CAddrMan.MayTake | src/addrman.cpp:295-303 | Whether the cell may be taken |
| AddrManager.CAddrMan.InsertNew | src/addrman.cpp:293-313 | The placing of an entry in place |
| AddrManager.CAddrMan.Factor | src/addrman.cpp:281-283 | The doubling loop computes two to the reference count |
| AddrManager.CAddrMan.Enroll | src/addrman.cpp:287-289 | The creation of an unknown address in place |
| AddrManager.CAddrMan.AddAddr | src/addrman.cpp:249-315 | Add_ in place, result included, keeping the invariant: the state that AddrBook.AddOnBook and AddrLaws are about |
| AddrManager.CAddrMan.AttemptAddr | src/addrman.cpp:317-334 | Attempt_ in place, keeping the invariant |
| AddrManager.CAddrMan.ConnectedAddr | src/addrman.cpp:482-500 | Connected_ in place, keeping the invariant |
| AddrManager.CAddrMan.GetAddresses | src/addrman.cpp:461-480 | GetAddr_ in place, list included, keeping the invariant |
| AddrManager.CAddrMan.SerializeTo | src/addrman.h:287-334 | Serialize writes the token sequence of the state |
| AddrManager.CAddrMan.UnserializeFrom | src/addrman.h:336-440 | Unserialize, into a new object or one in use, ends as the parse of the stream into what the object held says |
| AddrRoundTrip.ReadOverSpoils | src/addrman.h:336-440 | Reading into a manager that holds an id the stream does not number never gives a consistent manager, because Clear leaves that entry in mapInfo |
| AddrManager.CAddrMan.ReadLoops | src/addrman.h:365-434 | The reading loops in place |
| AddrManager.CAddrMan.PruneEntries | src/addrman.h:424-434 | The pruning loop in place |
| AddrManager.CAddrMan.CheckTried | src/addrman.cpp:423-435 | The tried loop of Check_ on any table: it breaks off, or leaves something over, exactly if the tried table is not in order |
| AddrManager.CAddrMan.CheckNew | src/addrman.cpp:437-448 | The new loop of Check_ on any table: it breaks off, or leaves something over, exactly if a holder, a position or a reference count is wrong |
| AddrManager.CAddrMan.Check | src/addrman.cpp:384-458 | On any table Check_ returns 0 exactly if the table is sound, the times are sane and the key is not null; on a sound table its other codes are -1, -6, -8 and -16; on a consistent one it changes nothing |
| CoinsCache.LookFindsUnspent | src/coins.cpp:93-100 | GetCoins through any stack finds unpruned coins exactly for the unspent transactions, and finds those coins |
| CoinsCache.HaveCoinsIsExact | src/coins.cpp:141-148 | HaveCoins, which tests for outputs and not for unspent ones, is exact |
| CoinsCache.FetchKeeps | src/coins.cpp:75-91 | Fetching keeps the invariant and shows the same coins at every level |
| CoinsCache.ModifyKeeps | src/coins.cpp:102-121 | Starting a modification keeps the invariant and shows the same coins at every level |
| CoinsCache.ModifyNewKeepsIff | src/coins.cpp:123-130 | Marking an entry fresh without asking the base keeps the invariant and what every level shows if and only if nothing unspent lies below and any entry already cached is empty |
| CoinsCache.AssignKeeps | src/coins.cpp:282-299 | Changing the coins under modification changes exactly that entry of the top level |
| CoinsCache.ReleaseKeeps | src/coins.cpp:287-299 | Ending a modification keeps the invariant, never takes more usage off than is counted, and drops a fresh pruned entry without changing what is shown |
| CoinsCache.UncacheKeeps | src/coins.cpp:217-224 | Uncaching shows the same coins at every level and never takes more usage off than is counted |
| CoinsCache.MergeShows | src/coins.cpp:165-204 | Merging the entries of a child shows the coins of the child over those of the parent, whatever entries were dropped instead of written |
| CoinsCache.BatchWriteKeeps | src/coins.cpp:165-208 | BatchWrite keeps the invariant of the parent, usage included, and makes it show what the child showed |
| CoinsCache.FlushKeeps | src/coins.cpp:210-215 | After Flush parent and child show what the child showed, and the child is empty with no usage |
| CoinsCache.FlushKeepsBestBlockIff | src/coins.cpp:155-163 | Flush keeps the best block of the stack if and only if the child had one or the parent has none that comes to show |
| CoinsCache.FlushLosesBestBlock | src/coins.cpp:155-163 | A new cache on one that stands for block 8, over a database at block 7: flushing it takes the stack from block 8 to 7 |
| CoinsRuns.SameAllowed | src/coins.cpp:75-224 | The calls the assertions and the assumption of ModifyNewCoins allow are those the plain maps allow |
| CoinsRuns.CallRefines | src/coins.cpp:75-224 | Every call on the top of a stack, and every fetch, flush, uncache, and look at or change of the best block on a level below, keeps flags and usage right and does to levels and best blocks what it does to plain maps |
| CoinsRuns.StepRefines | src/coins.cpp:75-224 | A call is made on the stack exactly if it is made on the plain maps, and leads to the same levels, best blocks and open entry |
| CoinsRuns.LearnedBests | src/coins.cpp:155-159 | GetBestBlock finds the topmost best block that was set and leaves it on the levels above |
| CoinsRuns.RunRefines | src/coins.cpp:75-224 | Any run of calls on any stack, with pushes and drops of caches, keeps the invariant and ends in the levels, best blocks and open entry of the same run on plain maps, which look at nothing else |
| CoinsTypes.CleanUpKeeps | src/coins.h:115-120 | Cleanup changes no available output, and pruned coins become empty |
| CoinsTypes.SpendTakesOne | src/coins.cpp:38-45 | Spend takes away exactly that output and leaves height, version and coinbase flag alone; a failed one changes nothing, a successful one leaves no spent output at the end |
| CoinsObjects.CCoinsViewDB.BatchWriteDb | src/txdb.cpp:55-77 | The database writes or erases exactly the dirty entries, and keeps its best block for a null hash |
| CoinsObjects.CCoinsViewCache.FetchCoins | src/coins.cpp:75-91 | FetchCoins in place, through the whole stack |
| CoinsObjects.CCoinsViewCache.GetCoins | src/coins.cpp:93-100 | GetCoins finds exactly what looking down the stack finds |
| CoinsObjects.CCoinsViewCache.HaveCoins | src/coins.cpp:141-148 | HaveCoins is true exactly for the transactions with something unspent |
| CoinsObjects.CCoinsViewCache.ModifyCoins | src/coins.cpp:102-121 | ModifyCoins in place |
| CoinsObjects.CCoinsViewCache.ModifyNewCoins | src/coins.cpp:123-130 | ModifyNewCoins in place |
| CoinsObjects.CCoinsViewCache.AssignCoins | src/coins.cpp:282-285 | A write through a modifier in place |
| CoinsObjects.CCoinsViewCache.ReleaseModifier | src/coins.cpp:287-299 | The end of a modifier in place |
| CoinsObjects.CCoinsViewCache.UncacheCoins | src/coins.cpp:217-224 | Uncache in place |
| CoinsObjects.CCoinsViewCache.WriteEntry | src/coins.cpp:168-200 | One round of the BatchWrite loop |
| CoinsObjects.CCoinsViewCache.BatchWriteCache | src/coins.cpp:165-208 | The BatchWrite loop in place |
| CoinsObjects.CCoinsViewCache.FlushCoins | src/coins.cpp:210-215 | Flush in place: the base shows what the cache showed |
| CoinsObjects.CCoinsViewCache.GetBestBlock | src/coins.cpp:155-159 | GetBestBlock gives the best block of the stack, remembers it on the levels without one, and changes nothing else |
| CheckQueue.BatchSize | src/checkqueue.h:113 | A batch has at least one check and no more than are queued |
| CheckQueue.RunBatch | src/checkqueue.h:124-128 | A batch succeeds exactly if it was worth starting and every check in it is good |
| CheckQueue.Init | src/checkqueue.h:134 | A new queue satisfies the invariant |
| CheckQueue.StartKeeps | src/checkqueue.h:72-80 | A thread that enters Loop keeps the invariant |
| CheckQueue.ExecuteKeeps | src/checkqueue.h:124-128 | Working off a batch keeps the invariant: a false verdict comes from a failed check among those added |
| CheckQueue.AddKeeps | src/checkqueue.h:149-161 | Add keeps the invariant, whomever its notification wakes |
| CheckQueue.BatchArrives | src/checkqueue.h:83-88 | The clean-up after a batch accounts for its checks and wakes a sleeping master exactly when nothing is left to do |
| CheckQueue.FirstArrives | src/checkqueue.h:89-92 | The arrival of a thread counts it once |
| CheckQueue.WakeArrives | src/checkqueue.h:104-106 | The end of a wait, notified or spurious, keeps the counts |
| CheckQueue.SleepKeeps | src/checkqueue.h:94-105 | A thread that goes to sleep keeps the invariant; a master does so only while workers hold checks |
| CheckQueue.TakeKeeps | src/checkqueue.h:113-122 | Taking a batch off the queue keeps every check accounted for |
| CheckQueue.ReturnIsExact | src/checkqueue.h:95-102 | When Wait returns nothing is queued or held, every added check is counted, and the result is true exactly if all of them are good |
| CheckQueue.ReturnKeeps | src/checkqueue.h:95-102 | The return of Wait leaves the invariant for the next round |
| CheckQueueRuns.StepKeeps | src/checkqueue.h:72-161 | Under every step of every thread nTodo counts the queued and held checks, nTotal and nIdle the threads, only the master leaves, and it leaves with the right result |
| CheckQueueRuns.RunIsHonest | src/checkqueue.h:72-161 | Along every interleaving each result of Wait is true exactly if every check added since the result before it is good |
| CheckQueueRuns.WaitIsHonest | src/checkqueue.h:134-161 | The same from a new queue with any batch size and any number of workers |
| CheckQueueRuns.IdleMeans | src/checkqueue.h:167-171 | IsIdle holds exactly if nothing is queued or held and all added checks are good; it holds after Wait has returned, so the assertion of the controller does |
| CheckQueueRuns.NoLostWakeUp | src/checkqueue.h:84-105 | While the master is in Wait some thread can go on without a spurious wake-up: the notification of the last worker is not lost |
| CheckQueueRuns.StepShrinks | src/checkqueue.h:79-129 | Every step that is not Add, a return or a spurious wake-up uses up a bounded measure, and no spurious wake-up adds to it |
| CheckQueueRuns.WaitReturns | src/checkqueue.h:143-146 | Once the master is in Wait, runs make boundedly many working steps before it returns, and one is always possible |
| CheckQueueRuns.FairWaitReturns | src/checkqueue.h:143-146 | Under every schedule that never keeps a thread that can work from working for ever, Wait returns, whatever the order of the threads and the spurious wake-ups |
| CheckQueueRuns.QuietScheduleIsFair | src/checkqueue.h:143-146 | With nothing to do, the schedule in which Wait returns at once and nothing is added ever after is fair |
| ArithUint.BaseUint.Assign64 | src/arith_uint256.h:90-97 | Sets the number to the 64-bit value |
| ArithUint.BaseUint.AddAssign | src/arith_uint256.h:137-147 | Adds modulo 2^256, a number to itself included |
| ArithUint.BaseUint.Negate | src/arith_uint256.h:79-86 | Two's complement is the negative modulo 2^256 |
| ArithUint.BaseUint.SubAssign | src/arith_uint256.h:149-153 | Subtracts modulo 2^256, a number from itself included |
| ArithUint.BaseUint.Increment | src/arith_uint256.h:175-182 | Adds one modulo 2^256, however far the carry runs |
| ArithUint.BaseUint.Decrement | src/arith_uint256.h:192-199 | Subtracts one modulo 2^256, however far the borrow runs |
| ArithUint.BaseUint.MulAssign32 | src/arith_uint256.cpp:58-68 | Multiplies by a 32-bit number modulo 2^256 |
| ArithUint.BaseUint.MulAssign | src/arith_uint256.cpp:70-84 | Multiplies modulo 2^256 by another number; by itself it leaves zero, which is the product exactly for the multiples of 2^128 |
| ArithUint.SquareVanishesIff | src/arith_uint256.cpp:70-84 | The square of a number is zero modulo 2^256 if and only if the number is a multiple of 2^128 |
| ArithUint.OneTimesItself | src/arith_uint256.cpp:70-84 | One times itself is not zero modulo 2^256 |
| ArithUint.BaseUint.AddRow | src/arith_uint256.cpp:76-81 | The inner loop adds one limb times b at its place, up to a multiple of 2^256, with no sum beyond 64 bits; a zero number times itself stays zero |
| ArithUint.MulFits | src/arith_uint256.cpp:78-80 | No sum in a multiplication exceeds 64 bits and every carry fits a limb |
| ArithUint.BaseUint.CompareTo | src/arith_uint256.cpp:112-122 | Compares as the numbers compare |
| ArithUint.BaseUint.EqualTo | src/arith_uint256.cpp:124-136 | Equals a 64-bit number exactly if the values are equal |
| ArithUint.BaseUint.Bits | src/arith_uint256.cpp:174-187 | The position of the highest set bit plus one, or zero for zero |
| ArithUint.BaseUint.ShiftLeftAssign | src/arith_uint256.cpp:24-39 | Multiplies by a power of two modulo 2^256, for any shift |
| ArithUint.BaseUint.OrLeft | src/arith_uint256.cpp:33-36 | The or-ing of a limb's two halves adds the shifted limb |
| ArithUint.BaseUint.ShiftRightAssign | src/arith_uint256.cpp:41-56 | Divides by a power of two, for any shift |
| ArithUint.BaseUint.OrRight | src/arith_uint256.cpp:50-53 | The same for the shift to the right |
| ArithUint.BaseUint.DivAssign | src/arith_uint256.cpp:86-110 | Fails exactly for a zero divisor, having set the number to zero, and otherwise gives the exact quotient |
| ArithUint.BaseUint.DivLoop | src/arith_uint256.cpp:100-107 | Shift and subtract keeps quotient times divisor plus remainder, and ends with a remainder below the divisor |
| ArithUint.BaseUint.DivBit | src/arith_uint256.cpp:101-104 | One round of the division |
| ArithUint.BaseUint.SetBit | src/arith_uint256.cpp:103 | Setting a bit of the quotient adds its weight, because it was clear |
| ArithUint.Aligned | src/arith_uint256.cpp:98-99 | The shifted divisor does not overflow, and twice it exceeds the numerator |
| ArithUint.BaseUint.GetLow64 | src/arith_uint256.h:247-251 | The low 64 bits |
| ArithUint.BaseUint.SetCompact | src/arith_uint256.cpp:207-225 | Decodes modulo 2^256; reports overflow exactly if mantissa times 256^(exponent-3) is 2^256 or more, and a negative sign exactly for a nonzero value with the bit 0x800000 set |
| ArithUint.BaseUint.GetCompact | src/arith_uint256.cpp:227-248 | Encodes as the compact form says; its two assertions hold |
| Compact.OverflowIsExact | src/arith_uint256.cpp:220-223 | The three comparisons are exactly the test for 2^256 |
| Compact.RoundsDown | src/arith_uint256.cpp:227-248 | Decoding an encoding gives at most the value, off by less than one part in 2^15, and the value itself exactly if the dropped bytes are zero |
| Compact.Reencodes | src/arith_uint256.cpp:227-248 | Encoding what was decoded gives the same encoding |
| Compact.PackedGrows | src/arith_uint256.cpp:227-248 | The encoding keeps the order of values |
| Compact.PackedFits | src/arith_uint256.cpp:243-245 | The mantissa stays below the sign bit and the exponent below 256 |
| Chain.CBlockIndex.constructor | src/main.cpp:3632-3647 | A block added to the tree continues the branch of its predecessor and has its skip pointer |
| Chain.CBlockIndex.BackIsAncestor | src/chain.h:108-115 | Following pprev n times gives the block n lower on the branch |
| Chain.CBlockIndex.GetAncestor | src/chain.cpp:78-102 | The walk by skip pointers gives what following pprev gives, null outside the branch, and terminates; its assertion holds; where every block has its skip pointer it takes no more steps than the square of the number of bits of the height |
| Chain.CBlockIndex.BuildSkip | src/chain.cpp:109-113 | Sets the skip pointer to the ancestor at the skip height and keeps the block valid |
| ChainWalk.WalkLength | src/chain.cpp:78-102 | From a height of n bits the skip walk reaches any lower height in at most n^2 steps |
| ChainWalk.EvenDown | src/chain.cpp:85-101 | Going down on even heights the walk clears one bit a step, or goes back by one and then clears more |
| ChainWalk.OddDown | src/chain.cpp:85-101 | Going down on odd heights the walk clears two bits a step until that goes too far |
| ChainWalk.BetterPrev | src/chain.cpp:89-92 | Where an even height leaves its skip for that of its predecessor it is no multiple of 8, and that skip ends one above a multiple of 16 |
| ChainHeights.GetSkipHeight | src/chain.cpp:68-76 | The skip height is below the height |
| ChainHeights.ClearsLowestOne | src/chain.cpp:65 | n & (n - 1) clears exactly the lowest bit set |
| Chain.CommonPrefix | src/chain.cpp:13-23 | Two branches with a block in common share everything below it |
| Chain.CChain.SetTip | src/chain.cpp:13-23 | The chain is exactly the branch of the new tip, although the loop stops at the first block already there |
| Chain.CChain.FindFork | src/chain.cpp:53-62 | The highest block both on the chain and an ancestor of the block given, or null if there is none; everything below it is shared |
| Chain.CChain.GetLocator | src/chain.cpp:25-51 | Lists the hashes of the ancestors at the locator heights, whether it steps by index or by skip list |
| Chain.CChain.StepBack | src/chain.cpp:39-45 | Both ways of stepping back give the same ancestor |
| Chain.CChain.ContainsAncestors | src/chain.h:385-396 | Contains finds exactly the blocks reached from the tip by pprev, and Next is the block whose pprev is the one given |
| ChainHeights.LocatorFalls | src/chain.cpp:32-48 | Locator heights start at the block, fall strictly and end at the genesis block |
| ChainHeights.LocatorLength | src/chain.cpp:32-48 | A locator has at most 11 + ceil(log2(height + 1)) entries |
| Base58.EncodeBase58 | src/base58.cpp:75-113 | Encodes as the mapping from bytes to text says, whose letters Base58Laws.LettersAre fixes; the assertion on the carry holds |
| Base58.DecodeBase58 | src/base58.cpp:25-73 | Decodes as the mapping from text to bytes says, whose letters and spaces Base58Laws fixes, refusing the rest; the assertion on the carry holds |
| Base58.MultiplyAdd | src/base58.cpp:47-55 | The inner loop multiplies the number in the buffer and adds a digit, up to the carry out of the buffer |
| Base58.ToBase58 | src/base58.cpp:84-101 | The bytes as a number in base 58; no carry out of the buffer |
| Base58.FromBase58 | src/base58.cpp:37-57 | The letters as a number in base 256, up to a space or the end; no carry out of the buffer |
| Base58Sizes.EncodeFits | src/base58.cpp:84-85 | 138/100 of the length, plus one, are enough base-58 digits |
| Base58Sizes.DecodeFits | src/base58.cpp:37-38 | 733/1000 of the length, plus one, are enough bytes |
| Base58Spec.DecodeEncode | src/base58.cpp:25-113 | Decoding an encoding gives every byte vector back |
| Base58Spec.EncodeDecode | src/base58.cpp:25-113 | Encoding what was decoded gives the text back, without the spaces around it and anything behind a NUL |
| Base58Spec.IndexOfLetter | src/base58.cpp:23 | No letter of the alphabet occurs twice |
| Base58.Accepted | src/base58.cpp:58-72 | Ones, letters and trailing spaces are accepted with their value |
| Base58Spec.Refused | src/base58.cpp:43-62 | Text with anything else in between is refused |
| VarInts.ParseWritten | src/serialize.h:314-356 | Reading a written number gives it back and leaves what follows |
| VarInts.WriteVarInt | src/serialize.h:327-342 | Writes the bytes of the number; the digit buffer is large enough |
| VarInts.ReadVarInt | src/serialize.h:344-356 | Reads as the parse says, in a type of any width |
| VarInts.GetSizeOfVarInt | src/serialize.h:314-325 | The number of bytes written |
| VarInts.BufferSize | src/serialize.h:330 | (bits + 6) / 7 bytes are enough |
| Amounts.DecompressCompress | src/compressor.cpp:144-187 | Decompressing a compressed amount gives it back, for every natural number |
| Amounts.CompressDecompress | src/compressor.cpp:144-187 | Compressing a decompressed code gives it back, for every natural number |
| Amounts.MoneyFits | src/amount.h:25 | No amount up to MAX_MONEY needs more than 64 bits when compressed |
| Amounts.CompressAmount | src/compressor.cpp:144-161 | The loop computes the compressed amount modulo 2^64; its assertion holds |
| Amounts.DecompressAmount | src/compressor.cpp:163-187 | The loop computes the decompressed amount modulo 2^64 |
| ScriptCodec.DecompressCompress | src/compressor.cpp:50-133 | Decompressing a special script gives it back |
| ScriptCodec.ParseScriptBytes | src/compressor.h:68-93 | Reading a written script gives it back, special or not, and leaves what follows |
| ScriptCodec.SerializeScript | src/compressor.h:68-78 | Writes the bytes of the script |
| ScriptCodec.UnserializeScript | src/compressor.h:80-93 | Reads as the parse says |
| ScriptCodec.ScriptSize | src/compressor.h:60-66 | The number of bytes written |
| ScriptCodec.ParseTxOutBytes | src/compressor.h:110-122 | Reading a written output gives it back |
| ScriptCodec.SerializeTxOut | src/compressor.h:112-121 | Writes the bytes of the output |
| ScriptCodec.UnserializeTxOut | src/compressor.h:115-121 | Reads as the parse says |
| CoinsMask.CalcMaskSize | src/coins.cpp:20-36 | The number of mask bytes up to the last one in use, and how many are not zero |
| CoinsMask.FormByte | src/coins.h:194-197 | The mask byte, bit by bit |
| CoinsMask.BitOfMask | src/coins.h:195-197 | A bit of the mask is set exactly if its output is there |
| CoinsMask.MaskParses | src/coins.h:222-231 | Counting the non-zero bytes stops the reading exactly behind the last byte in use |
| CoinsMask.NothingBeyond | src/coins.cpp:30-35 | No output lies beyond the mask |
| CoinsCodec.MaskNeeded | src/coins.h:186 | The assertion on the header code holds for coins that are not pruned |
| CoinsCodec.HeaderTakesApart | src/coins.h:187 | The header code takes apart into the flags and the number of non-zero mask bytes |
| CoinsCodec.ParseCoinsBytes | src/coins.h:181-241 | Reading written coins gives them back trimmed, with a negative version or height cut to its low seven bits |
| CoinsCodec.RoundTripIff | src/coins.h:181-241 | Coins come back as they were if and only if they are trimmed and neither version nor height is negative |
| CoinsCodec.NegativeVersionLost | src/coins.h:189 | Coins with version -1 come back with version 127 |
| CoinsIO.Serialize | src/coins.h:180-207 | Writes the bytes of the coins |
| CoinsIO.GetSerializeSize | src/coins.h:157-178 | The number of bytes Serialize writes |
| CoinsIO.Unserialize | src/coins.h:209-241 | Reads as the parse says |
| CoinsIO.ReadMask | src/coins.h:221-231 | The mask loop reads as the parse says |
| CoinsIO.ReadOuts | src/coins.h:232-237 | The output loop reads as the parse says |
| Bip39Exact.AcceptedExactly | src/bip39.cpp:46-149 | Check accepts a text if and only if it is the sentence of some 16, 24 or 32 bytes |
| Bip39Exact.SentenceAccepted | src/bip39.cpp:46-149 | The sentence of 16, 24 or 32 bytes is accepted |
| Bip39Exact.AcceptedIsSentence | src/bip39.cpp:80-149 | An accepted text is the sentence of the bytes its words spell |
| Bip39Exact.SentenceRefused | src/bip39.cpp:94-97 | The sentences of 20 and 28 bytes, which FromData makes, are refused |
| Bip39Exact.ReadsNamed | src/bip39.cpp:99-130 | Reading the words of a sentence gives their indices |
| Bip39Exact.NamedIsRead | src/bip39.cpp:99-133 | A text with one word more than spaces is those words joined |
| Bip39.FromData | src/bip39.cpp:46-78 | The words of the data and its checksum, or nothing for a bad length |
| Bip39.WordAt | src/bip39.cpp:66-70 | Eleven bits as a number |
| Bip39.Check | src/bip39.cpp:80-149 | True exactly for accepted texts; the bit buffer is large enough |
| Bip39.PackWords | src/bip39.cpp:104-130 | Finds every word and sets its bits, or fails at one too long or unknown |
| Bip39.SetWord | src/bip39.cpp:120-125 | Sets the eleven bits of a word behind those already set |
| Bip39.SameTop | src/bip39.cpp:137-146 | Compares the checksum bits |
| Bip39Spec.WordsOfSpelled | src/bip39.cpp:61-70 | The words of the bits that words spell are those words |
| Bip39Spec.SpelledOfWords | src/bip39.cpp:104-130 | The bits that the words of some bits spell are those bits |
| Bloom.CBloomFilter.Insert | src/bloom.cpp:62-73 | After an insert the bits set are exactly the hashes of the keys inserted, the new one included |
| Bloom.CBloomFilter.Contains | src/bloom.cpp:89-103 | True exactly if every hash of the key is a hash of an inserted key; so true for every inserted key |
| Bloom.CBloomFilter.SetOneBit | src/bloom.cpp:70 | Sets exactly that bit |
| Bloom.CBloomFilter.Clear | src/bloom.cpp:119-124 | No key and no bit is left |
| Bloom.CBloomFilter.Reset | src/bloom.cpp:126-130 | The same, under the new tweak |
| Bloom.CBloomFilter.UpdateEmptyFull | src/bloom.cpp:207-218 | The flags it sets change no answer |
| BloomRolling.CRollingBloomFilter.constructor | src/bloom.cpp:220-231 | A new filter has no history |
| BloomRolling.CRollingBloomFilter.Insert | src/bloom.cpp:233-245 | Appends the key to the history; each filter keeps holding exactly the keys since its last clear, across the wrap of the counter |
| BloomRolling.CRollingBloomFilter.Contains | src/bloom.cpp:253-259 | True for each of the last nElements keys since the reset, and otherwise only if the filter asked has every hash |
| BloomRolling.CRollingBloomFilter.Reset | src/bloom.cpp:267-273 | Forgets the history |
| BloomRolling.HeldNext | src/bloom.cpp:235-244 | How many keys each filter holds after one more insert |
| BloomRolling.AskedHoldsEnough | src/bloom.cpp:255-258 | The filter that is asked holds at least the last nElements keys |
| InstantSend.StepKeeps | src/instantsend.cpp:135-607 | Every step keeps each locked outpoint the input of a live candidate with at least 10 votes on each of its inputs |
| InstantSend.RunsAreBacked | src/instantsend.cpp:704-727 | After any run a locked transaction has at least 10 votes on every one of its inputs |
| InstantSend.LocksStay | src/instantsend.cpp:450-464 | No run without CheckAndRemove releases a lock or gives it to another transaction |
| InstantSend.NoSecondLock | src/instantsend.cpp:80-91 | Once a transaction is locked, no other transaction with one of its inputs is ever locked in a run without CheckAndRemove |
| InstantSend.FinishLocks | src/instantsend.cpp:488-494 | A ready candidate becomes locked if and only if no other transaction holds one of its inputs and nothing else stands in the way |
| InstantSend.ExpiryKeepsIff | src/instantsend.cpp:589-607 | A locked transaction stays locked through CheckAndRemove if and only if neither it nor another candidate with one of its inputs expires |
| InstantSend.ExpiryTakesLock | src/instantsend.cpp:589-607 | A run from the empty table with two transactions for one input, the first confirmed and the second locked: when the first expires, the second loses its lock |
| InstantSendTable.RequestIsRun | src/instantsend.cpp:73-133 | A whole lock request, with its votes, is a run of steps without CheckAndRemove |
| InstantSendTable.CInstantSend.IsAllOutPointsReady | src/instantsend.cpp:1116-1126 | True exactly if there are inputs and each has 10 votes or more |
| InstantSendTable.CInstantSend.LockTransactionInputs | src/instantsend.cpp:450-464 | Locks the free inputs of a ready candidate and replaces no lock |
| InstantSendTable.CInstantSend.IsLockedInstantSendTransaction | src/instantsend.cpp:704-727 | True exactly if all inputs of the candidate are locked by it |
| InstantSendTable.CInstantSend.ResolveConflicts | src/instantsend.cpp:475-494 | For a ready candidate false if another transaction holds one of its inputs |
| InstantSendTable.CInstantSend.AddVote | src/instantsend.cpp:1067-1114 | Counts a vote once for each masternode and input of the candidate |
| InstantSendTable.CInstantSend.ProcessTxLockVote | src/instantsend.cpp:350-373 | Counts the vote and completes the lock if it was the one missing |
| InstantSendTable.CInstantSend.ProcessTxLockRequest | src/instantsend.cpp:73-133 | Turns away a request with a locked input, and otherwise admits it with its votes |
| InstantSendTable.CInstantSend.CreateTxLockCandidate | src/instantsend.cpp:135-157 | Admits a candidate with its distinct inputs, unless it is there already |
| InstantSendTable.CInstantSend.SyncTransaction | src/instantsend.cpp:799-804 | Notes the height of the block with the transaction |
| InstantSendTable.CInstantSend.CheckAndRemove | src/instantsend.cpp:587-607 | Removes exactly the expired candidates and the locks on their inputs |
| AddrLaws.NewCellIs | src/addrman.cpp:22-34 | The new-table cell of an address depends on the address and on who told of it: one of 1024 buckets, and in it one of 64 positions that the bucket and the service decide |
| AddrLaws.TriedCellIs | src/addrman.cpp:15-34 | The tried-table cell depends on the service alone: one of 256 buckets and one of 64 positions |
| AddrLaws.DecentExactly | src/addrman.cpp:36-54 | An entry is worth keeping exactly if it was tried in the last 60 seconds; or was seen at most 2592000 seconds ago and is at most 600 ahead, with fewer than 3 attempts or a success, and with fewer than 10 or a success in the last 604800 seconds |
| AddrLaws.KnownKeepsProfile | src/addrman.cpp:258-285 | Add_ of a known routable address returns false, joins the services, and changes nothing else of its profile but the time |
| AddrLaws.KnownTimeMoves | src/addrman.cpp:260-263 | The stored time changes only to max(0, announced - penalty) modulo 2^32, and only if it was zero or more than an hour and the penalty behind, or a day and the penalty for an address not seen for a day; it never falls as long as announced - penalty fits 32 bits, and ends at or above announced - penalty - 3600 for an address seen within a day |
| AddrLaws.KnownTimeFallsIff | src/addrman.cpp:260-263 | The stored time falls if and only if a negative penalty carries the announced time beyond 32 bits to a lower one; never with a penalty that is not negative |
| AddrLaws.KnownCells | src/addrman.cpp:268-313 | A known address gains the cell of this source if and only if it is not tried, the announcement is newer than the stored time, it has fewer than 8 cells, the draw is a multiple of two to their number, and whoever holds the cell is terrible; it loses none |
| AddrLaws.UnknownEnters | src/addrman.cpp:286-313 | An unknown routable address enters the book if and only if whoever holds its cell is terrible or has another cell; it enters untried, never attempted, with the announced time less the penalty, in that cell alone |
| AddrLaws.AddAndOthers | src/addrman.cpp:293-313 | Every other address keeps its profile and its place through Add_, except that it gives up the cell the added one has gained and is forgotten if that was its only one; an address that is not routable changes nothing |
| AddrLaws.GainedFrom | src/addrman.cpp:295-303 | A cell is gained only from a holder that is terrible or has another cell |
| AddrLaws.DecentIsKept | src/addrman.cpp:36-54 | An entry with one cell that was tried in the last 60 seconds, or seen in the last thirty days without failing too often, keeps it through every Add_ of another address |
| AddrLaws.GoodIsTried | src/addrman.cpp:200-247 | A listed service that is marked good is tried afterwards, with that time as its last success and try and no attempts; a service that is not listed changes nothing |
| AddrLaws.GoodAndOthers | src/addrman.cpp:222-246 | Good_ leaves all others alone if the service was tried already or nobody is in its tried cell |
| AddrLaws.GoodEvicts | src/addrman.cpp:170-192 | A tried address in the way goes back to the one cell of its own source, and everyone else stands as before but for giving that cell up |
| AddrLaws.AttemptIs | src/addrman.cpp:317-334 | Attempt_ sets the try time and counts one attempt of exactly the service named, port included, and changes nothing else |
| AddrLaws.ConnectedIs | src/addrman.cpp:482-500 | Connected_ sets the time of exactly the service named, if it is more than 1200 seconds behind, and changes nothing else |
| AddrLaws.QuotaIs | src/addrman.cpp:463-465 | The quota is at most 2500 and 23 in 100 of the addresses, and the largest such number |
| AddrLaws.AnyPositionIsDrawn | src/addrman.cpp:472 | Every position that is left can be drawn |
| AddrLaws.GetAddrListIs | src/addrman.cpp:461-480 | GetAddr_ returns decent addresses of the book, none of them twice, at most 2500 and at most 23 in 100 |
| AddrLaws.GetAddrMissesNone | src/addrman.cpp:461-480 | If fewer are returned than 2500 and 23 in 100 allow, every decent address of the book is among them |
| AddrGroups.OneSourceFillsFew | src/addrman.h:118-122 | However long a new manager is told of addresses by one range, and whatever is marked good in between, they occupy at most 64 of the 1024 new buckets, and so at most 4096 cells |
| AddrGroups.FloodLeaves | src/addrman.h:116-122 | No number of additions told by one range takes a cell outside its 64 buckets from whoever holds it, or an address out of tried |
| AddrGroups.OneRangeFillsFew | src/addrman.h:127-128 | The tried addresses of one range lie in at most 8 of the 256 buckets, so there are at most 512 of them |
| AddrLayout.StreamBegins | src/addrman.h:291-334 | The stream begins with version 1, key size 32, the key, nNew, nTried and 1024 with bit 30 set, and has one more item for each entry, bucket and occupied cell |
| AddrLayout.EntryStands | src/addrman.h:300-319 | An untried entry stands behind the header and the untried ones of lower id, a tried one behind all untried and the tried ones of lower id, with its six serialized fields |
| AddrLayout.BucketStands | src/addrman.h:320-333 | Bucket b stands behind b counts and the indices of all earlier cells: the number of its cells, then for each in the order of positions how many untried entries have a lower id than its holder |
| AddrLayout.HeadExactly | src/addrman.h:343-363 | A header is accepted if and only if the key size is 32 and the counts are at most 65536 and 16384 |
| AddrLayout.HeadIs | src/addrman.h:343-355 | The fields are taken as they come, with bit 30 of the bucket count flipped unless the version is 0; cells are used exactly in version 1 with 1024 buckets |
| AddrReading.ReadingIsConsistent | src/addrman.h:336-440 | Whatever stream a new manager reads to its end, damaged, of another version or not: if no address occurs twice among its entries, the manager satisfies the invariant if and only if the count of tried entries was not negative |
| AddrKept.NewIsKept | src/addrman.h:365-434 | A new entry that is kept has the fields of the stream; where the cells cannot be used, exactly the first one at home in each cell is kept, in that cell alone |
| AddrKept.TriedIsKept | src/addrman.h:385-404 | Exactly the first tried entry at home in each tried cell is kept, tried, with the fields of the stream |
| AddrKept.TwiceIsInconsistent | src/addrman.h:336-440 | A stream of version 0 with the same address as a new and as a tried entry is read without complaint and gives a manager that does not satisfy the invariant |
| CompactLaws.DecodedIs | src/arith_uint256.h:257-270 | The number is mantissa times 256^(exponent-3), cut to a whole number: the low 23 bits and the high 8 bits of the code |
| CompactLaws.SignComesBack | src/arith_uint256.cpp:207-248 | Decoding what GetCompact(fNegative) returns gives back exactly fNegative for every number but zero, which has no sign, and the same number either way |
| CompactLaws.EncodingIsCanonical | src/arith_uint256.cpp:227-248 | The mantissa of an encoded number that is not zero is from 0x8000 to 0x7fffff and the exponent from 1 to 33 |
| CompactLaws.KnownValues | src/test/arith_uint256_tests.cpp:483-527 | The values of the unit tests, one for each way through the code |
| Base58Laws.LettersAre | src/base58.cpp:22-23 | The letters are exactly the ASCII digits and letters other than 0, I, O and l, and each stands at its place in the order of codes |
| Base58Laws.SpacesAre | src/base58.cpp:28 | The characters skipped around a text are space and those from tab to carriage return |
| Base58Laws.EncodingIs | src/base58.cpp:75-113 | An encoding has one 1 for each leading zero byte, then no further 1 in front of the letters whose number in base 58 is that of the bytes in base 256 |
| CoinsLaws.CleanUpIs | src/coins.h:115-120 | Cleanup gives the only coins with the same height, version and coinbase flag whose outputs are those up to the last unspent one |
| CoinsLaws.SpendIs | src/coins.cpp:38-45 | Spend succeeds exactly for an output that is there, blanks it and trims; a failed one changes nothing; height, version and coinbase flag stay in every case |
| CoinsLaws.FetchIs | src/coins.cpp:75-91 | Fetching makes an entry exactly if something is found below: those coins, not dirty, and fresh exactly if nothing unspent is there |
| CoinsLaws.ModifyIs | src/coins.cpp:102-121 | A modification starts from the coins that are shown, or from empty ones; the entry is dirty, and a new one is fresh exactly if nothing unspent is below |
| CoinsLaws.ReleaseIs | src/coins.cpp:287-299 | The end of a modification trims the coins, keeps the flags, and drops the entry exactly if it is fresh and nothing is left of it |
| CoinsLaws.UncacheIs | src/coins.cpp:217-224 | An entry is dropped exactly if it has neither flag |
| CoinsLaws.MergeIs | src/coins.cpp:165-204 | A clean entry of the child changes nothing; a dirty one takes ours away if ours, or else the child's, is fresh and nothing is left, and otherwise takes its place, dirty and as fresh as that |
| CoinsLaws.WriteDbIs | src/txdb.cpp:55-77 | The database keeps what is unspent of the dirty entries and what it had of all others |
| CoinsLaws.FlushIs | src/coins.cpp:206-215 | Flush leaves an empty top without usage and hands its best block down, to a database only if it is not null |
| InstantSendLaws.LocksHaveTen | src/instantsend.h:194-208 | After any run from the empty table whoever holds an outpoint has it as an input, was completed in that run, and has at least 10 different masternodes on each of its inputs, each of which voted for it in that run |
| InstantSendLaws.LockedHasTen | src/instantsend.cpp:704-727 | The same for every input of a transaction that counts as locked |
| InstantSendLaws.LockedIs | src/instantsend.cpp:704-727 | A transaction counts as locked exactly if it is a candidate with an input and holds all its inputs |
| InstantSendLaws.VotesWereCast | src/instantsend.cpp:1067-1114 | Every vote that is counted after a run was there before or was cast in it |
| InstantSendLaws.FinishIs | src/instantsend.cpp:450-494 | Completion locks all inputs if each has 10 votes, there is one, no other transaction holds one and nothing else stands in the way; otherwise it changes nothing |
| InstantSendLaws.NineAreTooFew | src/instantsend.h:208 | A candidate with 9 votes or fewer on an input is not locked, and completion does not lock it |
| InstantSendLaws.TenAreNeeded | src/instantsend.h:194-208 | In a run from the empty table, n votes of different masternodes lock the transaction if and only if n is at least 10 |
| InstantSendLaws.ReceiveIs | src/instantsend.cpp:80-91 | A request is admitted exactly if it is valid, new, and none of its inputs is locked; it starts with no votes on exactly its inputs, unconfirmed |
| InstantSendLaws.VoteIs | src/instantsend.cpp:1067-1114 | A vote adds its masternode to the input of the candidate and changes nothing else; for another input or candidate it changes nothing |
| InstantSendLaws.ExpireIs | src/instantsend.cpp:1146-1150 | A candidate is kept through its nKeepLock-th block after the one it was confirmed in and goes with the next; a lock stays exactly if no candidate that goes has its outpoint |
| InstantSendLaws.VoteMessageIs | src/instantsend.cpp:350-373 | A vote message that is accepted and new is the vote and the completion; any other changes nothing |
| InstantSendLaws.RequestIs | src/instantsend.cpp:73-133 | A request that is admitted has the votes of its own node and the waiting ones counted, and is locked if it then has 10 on every input and no rival |
| CheckQueueLaws.BatchIsFair | src/checkqueue.h:107-113 | A batch is the largest that exceeds neither the limit nor the share of the queue per thread, idle ones counted twice, but at least one check |
| CheckQueueLaws.TakeIs | src/checkqueue.h:113-122 | A thread takes the last checks of the queue, last first, and starts from the verdict so far |
| CheckQueueLaws.EmptyIs | src/checkqueue.h:94-106 | With an empty queue the master leaves exactly if nothing is left to do, with the verdict so far, which starts afresh; everyone else sleeps |
| CheckQueueLaws.AddIs | src/checkqueue.h:149-161 | Checks go to the end of the queue in their order; one wakes one sleeping worker, if there is one, more wake all, none wakes nobody |
| CheckQueueLaws.CleanUpIs | src/checkqueue.h:82-92 | A batch that is counted is taken off what is left to do, and wakes the master exactly if nothing is left and a worker did it |
| CheckQueueLaws.ExecuteIs | src/checkqueue.h:124-128 | The verdict on a batch is that of all its checks, and false if something had failed before |
| ChainLaws.EvenSkipIs | src/chain.cpp:65-76 | An even height skips to itself without its lowest one bit |
| ChainLaws.OddSkipIs | src/chain.cpp:65-76 | An odd height keeps its last bit and loses the two lowest of the others |
| ChainLaws.LastSkipIs | src/chain.cpp:65-76 | An odd height with one other bit skips to 1 |
| ChainLaws.NextIs | src/chain.cpp:85-101 | A step takes the skip if it lands on the target, or above it unless the skip of the block before lands more than two lower and still not below the target |
| ChainLaws.LocatorGaps | src/chain.cpp:32-48 | The first heights of a locator lie one apart; after the first ten the gaps are 1, 2, 4 and so on, down to the genesis block |
| CodecLaws.VarIntIsDocumented | src/serialize.h:291-300 | The bytes of a number encode it by the documented sum, only the last one has its high bit clear, and they are one up to 127, two up to 16511 and three up to 2113663 |
| CodecLaws.VarIntIsUnique | src/serialize.h:301-304 | Every number has exactly one encoding: bytes of which only the last has its high bit clear are those written for the number they encode |
| CodecLaws.ReadsModulo | src/serialize.h:344-356 | Any bytes of the right form are read as the number they encode modulo the width of the type, whatever follows |
| CodecLaws.NeverEnds | src/serialize.h:344-356 | Bytes that all have their high bit set are no number |
| CodecLaws.KnownVarInts | src/serialize.h:306-310 | The documented encodings; 16511 takes two bytes, not the documented three |
| CodecLaws.LongVarInts | src/serialize.h:310-311 | 2^32 takes the documented bytes; 65535 is 82 FE 7F, not the documented 82 FD 7F |
| CodecLaws.AmountCode | src/compressor.cpp:135-161 | (10 n + d) 10^e with a last digit d and e below 9 has the code 1 + 10 (9 n + d - 1) + e |
| CodecLaws.BigAmountCode | src/compressor.cpp:135-161 | m 10^9 has the code 1 + 10 (m - 1) + 9 |
| CodecLaws.KnownAmounts | src/test/compress_tests.cpp:42-47 | The amounts and codes of the unit tests |
| CodecLaws.HashScripts | src/compressor.cpp:13-38 | A script to a key hash is the tag 0 and the hash, one to a script hash the tag 1 and the hash |
| CodecLaws.KeyScripts | src/compressor.cpp:40-87 | A script to a compressed key is its parity byte and coordinate, one to a fully valid uncompressed key 4 or 5 by its parity and the first coordinate |
| CodecLaws.OtherScripts | src/compressor.h:68-78 | Every other script is written as it is after its length and six |
| CodecLaws.TagsAreRead | src/compressor.cpp:97-133 | What follows the tags 0 to 3 is read as that script whatever it is, after 4 and 5 as what the curve makes of it; a point that is none leaves the script as it was |
| CodecExamples.OneIs | src/coins.h:41-53 | The first documented example is serialized to the documented bytes |
| CodecExamples.TwoIs | src/coins.h:56-75 | The second documented example is serialized to the documented bytes |
| Bip39Laws.SentenceIsNumber | src/bip39.cpp:46-78 | The words of a sentence as digits in base 2048 make the number of the data in base 256 with the first bits of the hash behind, one for every four bytes |
| Bip39Laws.JoinedIs | src/bip39.cpp:61-76 | Words are set apart by one space |
| Bip39Laws.LengthsAre | src/bip39.cpp:46-52 | FromData takes 16, 20, 24, 28 and 32 bytes, which make 12, 15, 18, 21 and 24 words |
| BloomLaws.HashIs | src/bloom.cpp:56-60 | Hash number i uses the tweak plus i times 0xFBA4C795 in 32 bits as its seed |
| BloomLaws.AskedHoldsExactly | src/bloom.cpp:233-259 | After k keys the filter asked holds the last n and k modulo n more, so never as many as 2n |

## Left out

- AddrRoundTrip.RoundTrip: covers reading into a new object, the current format and the current bucket counts. Of streams of other versions and damaged ones `AddrReading.ReadingIsConsistent`, `AddrKept.NewIsKept` and `AddrKept.TriedIsKept` say what a new object makes; a negative count of new entries is refused at once, which the code does not do.
- AddrReading.ReadingIsConsistent: says nothing in general of a stream in which an address occurs twice.
- AddrRuns.RunsPassCheck: asks that the times passed in are not negative and that a successful connection has a time other than zero, because `Check_` complains about other times although the structure is sound.
- CheckQueueRuns.FairWaitReturns: takes it from the scheduler that a thread that can work is never kept from it for ever.
- CoinsCodec.RoundTripIff: is about outputs that fit their types: values below 2^63 whose compressed form fits 64 bits, which `Amounts.MoneyFits` shows of every valid amount, scripts below 4 GiB, and spent outputs as `SetNull` leaves them.
- BloomRolling.CRollingBloomFilter.Contains: is about filters with a nonempty bit array, at least one hash function and nElements above zero.
- The address manager's `Select_` and `GetChance`, which draw by floating-point chances until they succeed.
- Widths of the address manager's counters and ids, which are unbounded here; service flags are a set of bits, addresses and keys are numbers, and stream items are typed values instead of bytes.
- Locks around the address manager and the coin caches; both are modelled as single-threaded.
- The `nRounds` field of `CTxOut`, which is only kept in memory.
- `SetBackend`, `GetStats`, `AccessCoins` and the value and priority computations of the coin caches; the memory use of coins is any function of their value that is zero for coins without outputs.
- Interruption of the check queue's threads, its quit flag, which is never set, and checks with side effects; a check has one outcome.
- Hexadecimal text, `double` values, the bitwise operators and widths other than 256 of the big integers.
- The other fields of `CBlockIndex`, the map that owns the blocks, the width of `nStep` in `GetLocator`, and the comparison of two chains.
- Base58Check and the address types built on it, and texts so long that `int` sizes overflow.
- Checksums, limits on sizes and the obfuscation of the coins database.
- `Generate` and `ToSeed` of the mnemonics, and texts with 2^32 spaces.
- The hash and the floating-point sizes of the bloom filters, filters received from peers, and `IsRelevantAndUpdate`.
- InstantSend's networking, signatures, orphan-vote bookkeeping, the vote map and its expiry, and what `ResolveConflicts` does to the mempool and the chain. Which votes are accepted is an input, so nothing is said about a masternode voting for two transactions. A request that is processed again because of orphan votes is a request of its own.
- Governance, wallet, scripts, consensus rules, networking and storage.

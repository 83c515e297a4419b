# Verified models of the common library's hard cores

Dafny models of five parts of the ZQ common library, with proofs of what they are for.
`dafny verify dfyconfig.toml` checks the project.

* **The evictor** (`Evictor.cpp`, `Evictor.h`): a write-back object cache with a
  five-state item machine, an LRU list with stored positions, a queue and a map of
  modified items, and a store.  `EvictorTypes`, `EvictorSpec` (the state as a value, and
  the object map read off it), `EvictorTables` (the data structures, and which state they
  stand for), `EvictorPoll` (the stages of poll), `Evictor` (the class), `EvictorRuns`
  (whole runs), `EvictorBatches` (what one poll saves, and several partial ones).
* **The lock** (`CritSectEx.h`, `CritSectEx.cpp`): spin, then wait on a semaphore, with a
  recursion count.  `CritSect` is the transition system, one interlocked operation, load,
  store, wait or release a step, any number of threads; `CritSectRuns` has the results
  about all runs and the code itself, step by step.
* **Hashes and codecs** (`CryptoAlgm.cpp`): `Sha1Block`, `Sha1`, `Sha1Example`, `Md5`,
  `BlockHash` (what SHA-1 and MD5 share), `Hmac`, `Crc32`, `Base64`, `Words`.
* **Buffers** (`BufferPool.cpp`): `BufferPool` (aligned pool over an intrusive free list)
  and `BufferList` (paged bytes).
* **Smaller refinements**: `LruMap` (`LRUMap.h`), `Preprocessor` with `MacroTexts`
  (`ConfigHelper.cpp`), `GuidCodec` (`Guid.cpp`).

`Basics` and `Lists` hold what several modules share.

## What is assumed

* Evictor: the child class's `marshal` and `unmarshal` are total and inverse, servants are
  not null, categories contain no `@`; each call is one atomic step.  Clients may write
  through a servant they refer to, and drop their last reference to a clean object's
  servant only once the store has its content; without the second, no usage guard keeps a
  changed object in the cache, and what was written to it is lost when a poll evicts it
  (`DroppedTooEarly` for every poll, `LosesDropped` for one that does).
* Lock: sequential consistency, thread ids distinct and not 0, `Leave` only by a thread
  that is inside.  Time and the spin count are left open.  `m_hSemaphore` is created once
  and never replaced (proved), so one count stands for the semaphore.
* SHA-1: an update has at most 1024 bytes, the size of the code's staging array, and so
  has each piece of an HMAC key or message.  MD5: at most 2^32 - 64 bytes, since the code
  adds 63 to positions in 32-bit words.
* Pool: the system gives any block away from all others, or none; nobody writes in front
  of a buffer.  A block is asked for at least the link word.
* Preprocessor: the methods are about tables and texts on which their loops end; which
  these are is proved beside them.

## Where the code does not do what one would expect

* A fresh `add` is not seen by `locate` or `remove` until it has been polled
  (`LocateReadsLastWrite` is exact, `FreshAddUnseen` an input).
* Store keys clash for every category with an `@` (`KeyClash`).
* `LRUMap` drops the entry just indexed, and returns a reference to it, exactly if the
  capacity is below 2 and there is no other entry to drop (`JustUsedKept`).  A map of capacity
  c of at least 2 fills up to c - 1 entries (`KeepsExactly`).  One that `resize` has shrunk stays
  as large as it was while new keys come, since each takes the place of the eldest
  (`ShrunkKeeps`); using a key that it has makes it one smaller.
* `fixup` raises its nesting error for flat texts too, once more than 256 references are
  defined, and it never resolves a text that refers into a cycle of definitions
  (`CycleNeverResolves`); cycles in the table that the text does not reach do no harm, and it
  resolves a text exactly if what the text reaches has no cycle and takes at most 256
  replacements (`ResolvesExactly`).  `define` accepts a cycle: a definition that is the
  macro's own reference between two texts.  On a text with that reference `fixup` then ends,
  with the nesting error, exactly if the reference starts earlier in the definition than its
  own length (`SelfReference`); otherwise it goes on for ever.
* `initialize` accepts sizes whose sum wraps around; then the blocks are too small for the
  buffers (`SizeExactly`), and for the larger alignments two buffers may coincide
  (`BuffersCollideExactly` says for which).
* A fill in the middle of a page takes what follows it on that page out of use (`Fill`,
  `FillsInMiddle`).
* What a client writes through an object it has added afresh is lost once the object has
  been polled (`PolledAddDetached` for every poll, `LosesWrite` for a client that does it).
* With the save-completed-only flag an object added afresh is never saved and never found,
  and one that was marked dirty as incomplete is not saved as long as it is not removed: `setDirty`
  records completion for clean objects only (`FreshAddStuck`, `HeldForEver`).
* `allocate` leaves the caller's pointer alone when the system refuses, and sets it to null
  in the other error cases.
* Base64 `decode` of a text of less than one quantum leaves `datalen` as it was, and with too
  little room it may give fewer bytes than there is room for (`TooLittleRoom` says when).
* `m_nWaiters` may be negative for a while: an unlocker may count out a waiter that counts
  itself out too (`WaitersGoNegative`); it is never below minus the number of threads
  (`CountsBounded`).

## Model

| member | source | states |
|---|---|---|
| `EvictorTypes.IdentToStrInjective` | Evictor.cpp:55-58 | Identities without '@' in their category never share a store key. |
| `EvictorTypes.KeyClash` | Evictor.cpp:55-58 | Every identity whose category does contain '@' shares its store key with another identity, so the restriction is exact. |
| `EvictorTypes.SaveAllEffect` | Evictor.cpp:711-740 | Saving a batch with distinct keys stores every created or modified record, removes every destroyed one, and touches no other key. |
| `EvictorSpec.IdentCodecSound` | Evictor.cpp:55-58 | With such identities, any marshalling that unmarshalling undoes gives a sound codec: what the other results assume can be had. |
| `EvictorSpec.PinKeeps` | Evictor.cpp:89-172 | Loading an object into the cache keeps the invariant and the object map; what is neither cached, pending nor stored is not in the object map. |
| `EvictorSpec.AddIsUpdate` | Evictor.cpp:177-257 | In all five item states and for fresh identities, adding is L[i:=obj] on the object map, keeps the invariant, and makes i a pending add exactly if it was neither cached nor stored. |
| `EvictorSpec.RemoveIsDelete` | Evictor.cpp:261-320 | Removing deletes i from the object map and nothing else, unless i is a pending fresh add, which stays. |
| `EvictorSpec.LocateIsLookup` | Evictor.cpp:324-351 | Locating changes no value, and for an identity that is not pending the located item holds L(i). |
| `EvictorSpec.SetDirtyKeeps` | Evictor.cpp:355-380 | Marking dirty changes no value, and the object is no longer one that the store lags behind without knowing. |
| `EvictorSpec.SaveKeeps` | Evictor.cpp:402-564 | Streaming, saving and settling any popped batch, in any mix of states, keeps the invariant and leaves every value of the object map alone. |
| `EvictorSpec.CutKeeps` | Evictor.cpp:675-708 | Eviction down to any length allowed by the usage guards keeps the invariant and every value: nothing unsaved is lost. |
| `EvictorTables.PositionIsOwnNode` | Evictor.cpp:649-673 | The stored list position of a cached item is a node of the list and names the item's own identity, so the repair branch of _evict is dead. |
| `EvictorTables.SameSize` | Evictor.cpp:389-396 | List and cache have the same size, so the list is never rebuilt. |
| `EvictorTables.OldestListed` | Evictor.cpp:678-692 | The last node of the list names a cached identity, so the two repair branches of _evictBySize are dead. |
| `EvictorPoll.RecordsSave` | Evictor.cpp:411-468 | Saving the records streamed for a batch leaves in the store, for each identity, what the batch asks: the marshalled content, no entry, or the entry it had. |
| `EvictorPoll.StagesSave` | Evictor.cpp:402-564 | The stages of poll together, from popping to marking clean, make exactly the state change SavedFrom that the object-map results are about. |
| `EvictorRuns.StepKeeps` | Evictor.cpp:89-579 | Every call, every poll and every permitted client action keeps the invariant and acts on the object map as on a dictionary. |
| `EvictorRuns.ReadsLastWrite` | Evictor.cpp:89-579 | In every run, whatever was polled, evicted and loaded in between, the object map holds what was written last. |
| `EvictorRuns.LocateReadsLastWrite` | Evictor.cpp:324-351 | In every run, locate finds what was written last if and only if the identity is not a pending fresh add. |
| `EvictorRuns.FreshAddUnseen` | Evictor.cpp:187-192 | An object added to an empty evictor is in the object map and yet not found by locate. |
| `EvictorRuns.FlushEmpties` | Evictor.cpp:382-579 | A full poll that holds nothing back leaves nothing in the modified map. |
| `EvictorRuns.StepReports` | Evictor.cpp:89-579 | An object is one the store lags behind unknowingly only after a client's write to it while it is clean, until a call of add, remove or setDirty about it; no poll, eviction or load makes one. |
| `EvictorRuns.UnreportedIsOwed` | Evictor.cpp:355-380 | In every run, by its events alone: an object changed in place with a setDirty or add since the last poll before the change, or one after it, is not such an object. |
| `EvictorRuns.OwedStaysOwed` | Evictor.cpp:382-579 | The condition is sharp: a change to a clean object that no call reports is not in the store after any poll, and the object stays clean. |
| `EvictorRuns.PolledAddDetached` | Evictor.cpp:187-192 | After any poll that takes a fresh add off the modified map, the object map and the store have what was added, the cache has not got it, and no client write to it is a write to the object map any more. |
| `EvictorRuns.FullPollDetaches` | Evictor.cpp:382-579 | A full poll that holds nothing back does so to every fresh add. |
| `EvictorRuns.DroppedTooEarly` | Evictor.cpp:675-708 | If the last reference to a clean, changed, unreported object is dropped, any poll that leaves too long a list with it at the old end evicts it, and any poll that evicts it changes its value: the assumption on clients is needed. |
| `EvictorRuns.LosesDropped` | Evictor.cpp:675-708 | A full poll that does so: it saves another object, evicts this one, and what was written is gone. |
| `EvictorRuns.StoreIsExact` | Evictor.cpp:382-579 | After a full poll in any run, with the save-completed-only flag off, the store has exactly the marshalled last write of every object that no client has changed in place unreported, and nothing for what is not there. |
| `EvictorRuns.RestartKeeps` | Evictor.cpp:382-579 | Then an evictor opened anew on the same store has what was written last for every such object. |
| `EvictorRuns.InUseStaysCached` | Evictor.cpp:539-546 | A live object with an outside reference to its item or its servant is still cached, with the same content, after any poll. |
| `EvictorRuns.ListIsByRecency` | Evictor.cpp:649-659 | In every run the LRU list is ordered strictly by the step of last use. |
| `EvictorRuns.EvictsLeastRecent` | Evictor.cpp:675-708 | In every run, what a poll evicts by size was last used before everything it keeps. |
| `EvictorBatches.FullPollSaves` | Evictor.cpp:382-579 | With or without the save-completed-only flag, after a full poll exactly the new and changed objects that are not complete still wait, their store entries untouched; of every other identity the store has what the object map has, unless a client has changed it unreported. |
| `EvictorBatches.DirtyThenPolled` | Evictor.cpp:355-380 | With the flag a clean object that is marked dirty is saved by the next full poll exactly if it is marked complete. |
| `EvictorBatches.HeldForEver` | Evictor.cpp:425-436 | With the flag an object that waits and is not complete does not get to the store in any run in which it is not removed, whatever is called. |
| `EvictorBatches.FreshAddStuck` | Evictor.cpp:355-380 | With the flag a fresh add, which is pending and not complete (`FreshAddIncomplete`), stays pending in every run, so it is never stored and never found. |
| `EvictorBatches.FullPollDrops` | Evictor.cpp:527-555 | After a full poll a removed object waits no longer, and its item is cached, dead, exactly if a client refers to it. |
| `EvictorBatches.PartialPoll` | Evictor.cpp:593-611 | A partial poll without the flag saves exactly the first batchSize identities that wait, in the order of the queue, and takes those behind them that much further. |
| `EvictorBatches.PartialPolls` | Evictor.cpp:382-579 | After k partial polls with nothing in between, an identity still waits if and only if k * batchSize others are queued before it; of every other one the store has what the object map has. |
| `EvictorBatches.FreshAddFound` | Evictor.cpp:402-402 | A fresh add is found after as many partial polls as it takes to get to its batch. |
| `EvictorBatches.ListFits` | Evictor.cpp:675-708 | A poll with something to do leaves a list that fits, or whose oldest entry has a client's reference to item or object or waits to be saved. |
| `EvictorBatches.EvictsNoMore` | Evictor.cpp:675-708 | A poll evicts a live object only from a list that is too long, and no more than makes it fit. |
| `EvictorCache.Evictor.constructor` | Evictor.cpp:60-81 | A new evictor is valid and its object map is empty; size 0 means the default, and a negative size a very large one, since the field is unsigned. |
| `EvictorCache.Evictor.Pin` | Evictor.cpp:89-172 | The item pinned is the cached one, loaded if only the store has it; None exactly if neither has it. |
| `EvictorCache.Evictor.Add` | Evictor.cpp:177-257 | The tables change as the state function Add says, the invariant is kept, and on the object map it is L[i:=obj]. The item returned holds the object: it is the cached one, or for a fresh identity the one in the modified map, and then among the fresh adds. |
| `EvictorCache.Evictor.Remove` | Evictor.cpp:261-320 | Returns L(i) and deletes it, for identities that are not pending; the thrown 404 is never reached. |
| `EvictorCache.Evictor.Locate` | Evictor.cpp:324-351 | Returns L(i) for identities that are not pending, moves the item to the front, and changes no value. |
| `EvictorCache.Evictor.SetDirty` | Evictor.cpp:355-380 | Queues a clean item as modified and changes no value. |
| `EvictorCache.Evictor.Requeue` | Evictor.cpp:649-659 | The item's identity moves to the front of the list, orphans are skipped, the other positions stay their items' own. |
| `EvictorCache.Evictor.PopModified` | Evictor.cpp:593-611 | Takes the tracked items off the front of the queue and off the map, in the order of their first occurrences: at most max of them, and fewer only if the queue ends; all if max is 0. |
| `EvictorCache.Evictor.StreamItem` | Evictor.cpp:425-468 | Streams the record its state asks for, or holds it back, and sends the item to the local queue its state asks for. |
| `EvictorCache.Evictor.SaveBatchToStore` | Evictor.cpp:711-740 | The store becomes what saving the records in order makes of it. |
| `EvictorCache.Evictor.BuryDead` | Evictor.cpp:527-555 | Exactly the dead items of the batch that no client refers to leave cache and list. |
| `EvictorCache.Evictor.MarkClean` | Evictor.cpp:558-568 | Exactly the saved items of the batch that are still managed become clean. |
| `EvictorCache.Evictor.EvictBySize` | Evictor.cpp:675-708 | Ends with the list cut from the old end, either short enough or stopped at an item in use. |
| `EvictorCache.Evictor.Flush` | Evictor.cpp:382-568 | Saves a batch as SavedFrom says, leaves no streamed record behind; the batch is the first batchSize tracked identities of the queue, or all there are; a full flush takes everything tracked, and empties the queue when nothing is held back. |
| `EvictorCache.Evictor.Poll` | Evictor.cpp:382-579 | Any poll with something queued saves a batch: the first batchSize tracked identities of the queue, or everything for a full one. It leaves the object map and the items of fresh adds alone and keeps the invariant; after a full one that holds nothing back queue and map are empty and the store agrees with the object map on every identity whose object has not been changed in place since it was last reported. |
| `EvictorCache.Evictor.WriteHosted` | Evictor.h:123-123 | A client's change of an object it refers to is L[i:=content], whatever state the item is in. |
| `EvictorCache.Evictor.ReferHosted` | Evictor.h:150-151 | Clients' taking and dropping references, also to an item whose object has been removed, changes no value, provided the last one to a clean object is dropped after the store has its content. |
| `EvictorCache.Evictor.WriteDetached` | Evictor.cpp:187-192 | A write through the item of a fresh add that the modified map has no more changes neither the object map nor the store. |
| `EvictorCache.LosesWrite` | Evictor.cpp:187-192 | A client that adds any object under any fresh identity, has it polled, changes it and looks it up finds what it added, whatever it wrote. |
| `CritSect.WaitersHaveSem` | CritSectEx.h:80-85 | A positive waiter count means that the semaphore has been created. |
| `CritSect.OwnerStep` | CritSectEx.h:56-76 | Every step of any thread keeps: the lock word is the id of the one thread that has the lock, or 0. |
| `CritSect.RecursionStep` | CritSectEx.h:222-242 | Every step keeps: the recursion count is the owner's depth, and 0 when the lock is free. |
| `CritSect.ConservedStep` | CritSectEx.cpp:36-74 | Every step keeps: waiter count + semaphore count + unlockers about to release = threads registered and not yet signalled or departed. |
| `CritSect.BoundedStep` | CritSectEx.h:72-87 | Every step keeps: the semaphore count with the signals on their way stays below the number of threads. |
| `CritSect.WokenStep` | CritSectEx.cpp:36-74 | Every step keeps: a free lock with a thread going to wait or waiting has a wakeup there or on its way, or a thread about to retry. |
| `CritSectRuns.RunInv` | CritSectEx.cpp:5-74 | All of these hold in every state of every run of any number of threads. |
| `CritSectRuns.DepthIsUnmatched` | CritSectEx.h:222-242 | A thread's depth is its successful enters less its leaves, counted over the run. |
| `CritSectRuns.MutualExclusion` | CritSectEx.h:107-125 | In every run at most one thread is inside, the lock word is its id, the recursion count its enters not yet left. |
| `CritSectRuns.FreedAtDepthZero` | CritSectEx.h:236-241 | In every run only the owner frees the lock, with nothing left to leave; a leave goes on to free it exactly if it is the last one. |
| `CritSectRuns.AssertsHold` | CritSectEx.h:228-238 | The assertions of Enter and Leave, and that the semaphore exists where it is waited on or released, hold at every step of every run. |
| `CritSectRuns.CountsBounded` | CritSectEx.h:60-87 | In every run waiters are conserved, the semaphore count is below the number of threads, and the waiter count between plus and minus that number. |
| `CritSectRuns.SemaphoreStays` | CritSectEx.cpp:5-14 | Once created the semaphore is never replaced, whoever races to create it. |
| `CritSectRuns.NoLostWakeup` | CritSectEx.cpp:36-74 | In every reachable state with the lock free and a thread going to wait or waiting: the semaphore is positive, or an unlocker is on its way, or a thread is about to retry. |
| `CritSectRuns.WaitersGoNegative` | CritSectEx.h:80-85 | A run of two threads in which the waiter count is -1. |
| `CritSectRuns.Progress` | CritSectEx.cpp:36-74 | A free lock does not stay free: a stretch of any run in which nobody has it is at most ten steps a thread long, and eleven more for each new call of Enter. |
| `CritSectRuns.Insistent` | CritSectEx.cpp:36-74 | A thread that came with no timeout stays on its way in through such a stretch, and there is always a step to take without a timeout; so the lock is taken within the bound. |
| `CritSectRuns.NoDeadlock` | CritSectEx.cpp:36-74 | In every reachable state with a thread on its way in or out, one of them can take a step without a timeout, unless a thread inside has yet to call Leave. While the lock is held that step may be a turn of the spin loop. |
| `CritSectRuns.EnterOutcome` | CritSectEx.h:107-125 | What a call of Enter comes to in any run: inside, with the lock and one level deeper; or outside with nothing changed, and that only for timeout 0 while another thread has the lock, or for a limited time that is over. So a call without a timeout returns only with the lock. |
| `CritSectRuns.TryNeverWaits` | CritSectEx.h:232-235 | A call with timeout 0 never spins, registers or waits: in any run it is over after four steps of its own, which can always be taken and never touch waiter count or semaphore. |
| `CritSectRuns.OwnerReenters` | CritSectEx.h:107-125 | A thread that has the lock is inside again after two steps of its own, whatever the timeout and the others do. |
| `CritSectRuns.GivesUp` | CritSectEx.cpp:36-74 | A thread that finds its time over counts itself out and returns with its next step. |
| `CritSectRuns.CritSectRec.Step` | CritSectEx.h:107-125 | The code's next atomic step of a thread changes the shared fields as the transition says, and keeps the invariant. |
| `Crc32.DivideIsSteps` | CryptoAlgm.cpp:119-120 | Dividing by the bits of a byte one at a time is eight steps of the register with the byte put in first. |
| `Crc32.StepsLinear` | CryptoAlgm.cpp:119-120 | The steps of the division are linear over exclusive or. |
| `Crc32.EntryIsSteps` | CryptoAlgm.cpp:68-112 | All 256 table entries are what eight steps of the reflected 0xEDB88320 division make of their index. |
| `Crc32.LookedIsDivide` | CryptoAlgm.cpp:119-120 | The table form of one byte is the division by its eight bits, for every register and byte. |
| `Crc32.Crc32` | CryptoAlgm.cpp:114-123 | The result is the bit-at-a-time CRC of section 8 of RFC 1952, for every starting value and byte string. |
| `Crc32.CrcOfParts` | CryptoAlgm.h:80-84 | crc32(crc32(c, a), b) = crc32(c, a + b). |
| `Crc32.CheckValue` | CryptoAlgm.cpp:114-123 | The CRC of the digits "123456789" from 0 is 0xCBF43926. |
| `Crc32.CrcOfZero` | CryptoAlgm.cpp:114-123 | The CRC of one zero byte from 0 is 0xD202EF8D. |
| `Crc32.Residue` | CryptoAlgm.cpp:114-123 | The CRC of any message followed by its own CRC, the least significant byte first, is one and the same word, 0x2144DF1C. |
| `Crc32.Running.Update` | CryptoAlgm.h:80-84 | The running value is the CRC of everything given so far, however split. |
| `Words.SwappedIsBigEndian` | CryptoAlgm.cpp:136-138 | The two masked rotations of blk0 turn a word loaded little-endian into the big-endian one. |
| `Sha1Block.ChForm` | CryptoAlgm.cpp:144-145 | The code's form of the first rounds' function is Ch of section 4.1.1 of FIPS 180-4. |
| `Sha1Block.MajForm` | CryptoAlgm.cpp:147-147 | The code's form of the third rounds' function is Maj. |
| `Sha1Block.MixedIsRound` | CryptoAlgm.cpp:143-148 | What the five macros add up, in their order and with their constants, is the round sum of section 6.1.2. |
| `Sha1Block.CircularStep` | CryptoAlgm.cpp:140-141 | Overwriting one of sixteen words keeps the last sixteen words of the 80-word schedule in their places. |
| `Sha1Block.Blk` | CryptoAlgm.cpp:130-141 | The word computed in place for round t is word t of the 80-word schedule. |
| `Sha1Block.RoundInPlace` | CryptoAlgm.cpp:143-148 | One macro on five variables in rotated roles is one round of the five-register loop. |
| `Sha1Block.Transform` | CryptoAlgm.cpp:156-196 | For every state and block the in-place transform is the compression of section 6.1.2 of FIPS 180-4. |
| `Sha1.TransformBytes` | CryptoAlgm.cpp:150-160 | The same on 64 bytes read as little-endian words, overwriting them. |
| `Sha1.Context.Update` | CryptoAlgm.cpp:211-239 | For any split into updates of at most 1024 bytes, the context is the fold over the full blocks, the rest in the buffer, and the 64-bit bit count. |
| `Sha1.Context.Pad` | CryptoAlgm.cpp:247-256 | The bytes appended by Final are the padding of section 5.1.1 of FIPS 180-4, with the count of the message alone. |
| `Sha1.Context.Final` | CryptoAlgm.cpp:243-266 | The digest is SHA-1 of everything given, however split. |
| `Sha1Example.HashOfAbc` | CryptoAlgm.cpp:125-266 | SHA-1 of "abc" is a9993e36 4706816a ba3e2571 7850c26c 9cd0d89d, through the padded block, all 80 schedule words and all 80 rounds. |
| `Sha1Example.ScheduleLinear` | CryptoAlgm.cpp:140-141 | The schedule of the exclusive or of two blocks is the exclusive or of their schedules. |
| `Sha1Example.ConstantsAreRoots` | CryptoAlgm.cpp:144-148 | The round constants are the square roots of 2, 3, 5 and 10 with 30 binary places, rounded down. |
| `Sha1.CountDigitIsLengthDigit` | CryptoAlgm.cpp:247-250 | The eight bytes taken from the two count words are the big-endian digits of eight times the byte count, modulo 2^64. |
| `Sha1.LengthIsNumber` | CryptoAlgm.cpp:247-250 | The eight length bytes are the digits, the most significant first, of eight times the byte count modulo 2^64. |
| `BlockHash.CountsAdd` | CryptoAlgm.cpp:223-224 | The two-word count with its carry and the top bits of the length is exact modulo 2^64, for every length of 32 bits. |
| `BlockHash.CountsIndex` | CryptoAlgm.cpp:222-222 | The buffer index read off the count is the message length modulo 64. |
| `BlockHash.GapIsLeast` | CryptoAlgm.cpp:252-254 | The zero bytes of the padding are the fewest that leave eight bytes of a block. |
| `BlockHash.LastBlock` | CryptoAlgm.cpp:229-237 | After the full blocks the context again is fold, rest and count, of the longer message. |
| `BlockHash.ShortUpdate` | CryptoAlgm.cpp:235-237 | The same for an update that completes no block. |
| `Md5.Context.Update` | CryptoAlgm.cpp:364-395 | The same as for SHA-1, with any block function, for updates up to 2^32 - 64 bytes. |
| `Md5.Context.Finalize` | CryptoAlgm.cpp:400-422 | The digest is the fold over the message padded as sections 3.1 and 3.2 of RFC 1321 say, for any block function and any split. |
| `Md5.PadLength` | CryptoAlgm.cpp:408-411 | The length taken from the padding array is the least that leaves eight bytes of a block. |
| `Md5.LengthIsNumber` | CryptoAlgm.cpp:400-422 | The eight length bytes are the digits of that number, the least significant first. |
| `Md5.DigestIsRegs` | CryptoAlgm.cpp:400-422 | Each four bytes of the digest, read little-endian, are a register. |
| `Md5.InitialDigest` | CryptoAlgm.cpp:400-422 | With a block function that does nothing, the digest of every message is the initial registers of section 3.3 of RFC 1321, byte by byte. |
| `Hmac.Context.constructor` | CryptoAlgm.cpp:686-694 | A new context is ready for the message under the given key. |
| `Hmac.Context.UpdateKey` | CryptoAlgm.cpp:574-620 | For any split of the key, it is in the key buffer or, from where it outgrows a block, in the hash. |
| `Hmac.Context.FinishKey` | CryptoAlgm.cpp:627-638 | The key buffer holds the block key of RFC 2104: the key or its hash, with zeros behind. |
| `Hmac.Context.EndKey` | CryptoAlgm.cpp:622-651 | The two pads are the block key XORed with the two filler bytes over the whole block, although the loop stops at the key's length. |
| `Hmac.Context.UpdateMessage` | CryptoAlgm.cpp:659-662 | The inner hash has taken the inner pad and the message so far. |
| `Hmac.Context.EndMessage` | CryptoAlgm.cpp:664-674 | The code is HMAC of section 2 of RFC 2104 on the concatenated key and message, for any split of both. |
| `Hmac.ZerosDoNotMatter` | CryptoAlgm.cpp:627-638 | Zeros appended to a key that still fits a block do not change the code. |
| `Hmac.LongKeyIsHashed` | CryptoAlgm.cpp:574-620 | A key longer than 64 bytes has the code of its hash; one of exactly 64 bytes is taken as it is. |
| `Hmac.EmptyKey` | CryptoAlgm.cpp:622-651 | With the empty key the inner hash has 64 times 0x36 in front of the message, the outer one 64 times 0x5c. |
| `Base64.GroupSextets` | CryptoAlgm.cpp:839-844 | The code's masks and shifts of three bytes are the four base-64 digits of their 24-bit number. |
| `Base64.Encode` | CryptoAlgm.cpp:813-868 | The text is the encoding of section 4 of RFC 4648, of the bytes up to the first 0 if the length is given as 0. |
| `Base64.Decode` | CryptoAlgm.cpp:761-811 | For every text and capacity: what is written, how much of it, and that nothing beyond the capacity changes; a text shorter than a quantum leaves the length as it was. |
| `Base64.EncodedShape` | CryptoAlgm.cpp:821-865 | 4*ceil(n/3) characters, with '=' exactly at the end and as many as bytes are missing. |
| `Base64.RoundTrip` | CryptoAlgm.cpp:732-868 | For every non-empty byte string and capacity of at least its length, decoding the encoding gives it back. |
| `Base64.TooLittleRoom` | CryptoAlgm.cpp:761-811 | With too little room, decoding an encoding gives a prefix of the bytes, and exactly when that fills the room. |
| `Base64.Vectors` | CryptoAlgm.cpp:813-868 | Three vectors of section 10 of RFC 4648, without and with one and two '='. |
| `Base64.LastCharacters` | CryptoAlgm.cpp:813-868 | The last two characters of the alphabet are '+' and '/'. |
| `Base64.OthersSkipped` | CryptoAlgm.cpp:732-759 | Within a quantum, a character that is neither in the alphabet nor '=' counts for nothing. |
| `BufferPool.FreeListHeap.Malloc` | BufferPool.cpp:40-56 | Pops the head of the chain, or takes a block apart from all others from the system, or fails only if both are out. |
| `BufferPool.FreeListHeap.Free` | BufferPool.cpp:57-75 | Takes back exactly the blocks that are handed out, pushing them or returning them to the system at the limit; a block already free is refused and nothing changes. |
| `BufferPool.PopKeeps` | BufferPool.cpp:41-46 | Popping keeps: the chain is acyclic, disjoint from the blocks handed out, and with them all the blocks there are. |
| `BufferPool.PushKeeps` | BufferPool.cpp:61-64 | Pushing keeps the same. |
| `BufferPool.GrantKeeps` | BufferPool.cpp:48-51 | A new block keeps the same. |
| `BufferPool.ReturnKeeps` | BufferPool.cpp:65-67 | Returning a block keeps the same. |
| `BufferPool.PaddingAligns` | BufferPool.cpp:153-158 | The padding is less than the alignment and makes the address a multiple of it. |
| `BufferPool.BuffersCollideExactly` | BufferPool.cpp:95-103 | For all sizes whose sum wraps around, two blocks apart from each other may have the same buffer if and only if the alignment has room for two block ends: by two bounds on the alignment and the wrapped sum. |
| `BufferPool.SizeExactly` | BufferPool.cpp:95-103 | The block asked for can hold word and buffer if and only if no size_t sum wraps around. |
| `BufferPool.BufferPool.Initialize` | BufferPool.cpp:95-112 | Succeeds exactly once and for consistent limits, also for sizes whose sum wraps around; the pool has room for the alignment exactly if it does not. |
| `BufferPool.BufferPool.Allocate` | BufferPool.cpp:141-172 | A buffer from the free list if it has one, with room for the alignment one that was not outstanding; each error exactly in its case, with no change. |
| `BufferPool.BufferPool.ReleaseBuffer` | BufferPool.cpp:174-196 | Succeeds exactly for outstanding buffers; every other pointer is refused with no change. |
| `BufferPool.BufferPool.Reserve` | BufferPool.cpp:114-140 | Ends with as many free blocks as asked within both limits, less the system's refusals, and never with fewer than before. |
| `BufferPool.PoolBuffersApart` | BufferPool.cpp:141-172 | After any calls on a pool with room for the alignment the outstanding buffers are aligned and do not overlap. |
| `BufferPool.BuffersApart` | BufferPool.cpp:151-161 | Each buffer is inside its own block. |
| `BufferPool.PoolConserves` | BufferPool.cpp:40-75 | After any calls on such a pool, blocks there are = outstanding + free, no block is both, and the sum is within the pool's limit. |
| `BufferList.BufferList.Length` | BufferPool.cpp:272-283 | The length of the contents. |
| `BufferList.BufferList.Read` | BufferPool.cpp:344-377 | For every list, offset and length: the contents from the offset on, cut to the length, and nothing else written. |
| `BufferList.BufferList.Fill` | BufferPool.cpp:296-342 | For every list, owned or not, and every offset: the pages that are there take the bytes where they belong as far as they fit, each page touched ends what it has in use with them, everything else stays; an owned list takes the rest on new pages. On an owned list whose pages but the last are full, the contents become those before the offset, the bytes, and what was there from the end of their last page on. |
| `BufferList.FilledMore` | BufferPool.cpp:313-326 | Copying the next bytes into the page where the seek or the last page left off keeps what all pages have taken. |
| `BufferList.FillsInMiddle` | BufferPool.cpp:296-342 | What the page-by-page effect of a fill comes to on the contents of an owned list whose pages but the last are full, at every offset within them: the bytes are in their place, nothing before or on later pages changes, and the rest of the page that they end on is lost. |
| `BufferList.AppendsAtEnd` | BufferPool.cpp:296-342 | At the end of a list that only such fills have made, this appends exactly the bytes and keeps all pages but the last full. |
| `LruMap.LRUMap.Index` | LRUMap.h:120-153 | Using a key moves it to the end of the list of keys, a list too long loses its first; every key that is kept has the value it had, or the default if it is new, and that of the key used is returned. A stamp that has wrapped to 0 clears all, and with it the history, and starts again. |
| `LruMap.LRUMap.Assign` | LRUMap.h:144-153 | An assignment through the reference returned changes the value of that key and nothing else; after any history each key kept has the value it was last given, by an assignment or as the default that it came in with. |
| `LruMap.LRUMap.Stamp` | LRUMap.h:123-143 | The two stamp maps stay inverse to each other and in the order of use. |
| `LruMap.LRUMap.Erase` | LRUMap.h:167-174 | Removes the key from all three maps; a key that is not there changes nothing. The list stays what the history of uses and erasures makes of it. |
| `LruMap.LRUMap.EraseEldest` | LRUMap.h:157-164 | Removes the key used longest ago. |
| `LruMap.LRUMap.Resize` | LRUMap.h:176-179 | Sets the capacity and drops nothing, so a shrunk map may hold more than its capacity. |
| `LruMap.KeepsMostRecent` | LRUMap.h:120-174 | After any history of uses, erasures and changes of capacity, the keys kept are the most recently used: none has been dropped that was used after one that is kept. |
| `LruMap.OrderedByUse` | LRUMap.h:120-153 | After any history the keys used and not erased since are listed strictly by the step of their last use. |
| `LruMap.UsedAndNotErased` | LRUMap.h:120-174 | The keys in that list are exactly those used with no erasure of them after the last use. |
| `LruMap.KeptUsedLater` | LRUMap.h:147-151 | Every key that is kept was last used after every one that was dropped for lack of room. |
| `LruMap.KeepsExactly` | LRUMap.h:120-153 | With one capacity of at least 2 and nothing erased, exactly the last capacity - 1 different keys are kept, whatever is assigned in between. |
| `LruMap.JustUsedKept` | LRUMap.h:147-151 | For every list of keys, also of a map shrunk by resize: the key just used is kept if and only if the capacity is at least 2 or there are other keys to drop. |
| `LruMap.ShrunkKeeps` | LRUMap.h:120-153 | In a map that is not empty and holds at least its capacity less one, as after shrinking, a new key takes the place of the eldest: the size stays, even at capacity 0 or 1. Using a key that a shrunk map has makes it one smaller. |
| `MacroTexts.FoundRef` | ConfigHelper.cpp:137-146 | In a well-formed text a search from any stale position finds a whole reference. |
| `MacroTexts.ReplaceKeeps` | ConfigHelper.cpp:156-157 | Replacing one reference does not change what all references of a text come to in the end, and leaves one replacement less to make. |
| `Preprocessor.TurnOnTokens` | ConfigHelper.cpp:137-158 | A turn of the loop on a well-formed text finds a whole reference, replaces it if it is defined, and otherwise passes over it and goes on behind it. |
| `Preprocessor.RoundEnds` | ConfigHelper.cpp:136-158 | A round on a well-formed text ends; one that replaces nothing has left nothing to replace, although positions may skip text. |
| `Preprocessor.FixupExpands` | ConfigHelper.cpp:122-163 | On every well-formed text that reaches, through the definitions, no cycle of them, whatever else the table holds, fixup comes to the full expansion if that takes at most 256 replacements, and to the nesting error otherwise, although positions are stale. |
| `Preprocessor.FixupSubstitutes` | ConfigHelper.cpp:122-163 | If no definition refers to a defined macro, it comes to the one-pass simultaneous substitution if at most 256 references are defined, and to the nesting error otherwise. |
| `Preprocessor.CycleNeverResolves` | ConfigHelper.cpp:122-163 | On every well-formed text that refers into a cycle of definitions fixup never comes to a text: it raises the nesting error or goes on for ever. |
| `Preprocessor.RanksOrCycle` | ConfigHelper.cpp:122-163 | The two results are all cases: in every table, every text either has a rank for each macro that it reaches or refers into a cycle of definitions. |
| `Preprocessor.ResolvesExactly` | ConfigHelper.cpp:122-163 | For every table and text in which each '$' begins a reference, fixup comes to a text if and only if the macros that the text reaches can be ranked, so are without a cycle, and take at most 256 replacements in all. |
| `Preprocessor.PlainEnds` | ConfigHelper.cpp:122-163 | With no '$' in the definitions fixup ends on every text, well-formed or not. |
| `Preprocessor.EndsOnce` | ConfigHelper.cpp:122-163 | What fixup comes to does not depend on the number of turns allowed for. |
| `Preprocessor.Preprocessor.Round` | ConfigHelper.cpp:136-158 | For every table and text on which it ends, a round in place comes to what its turns come to. |
| `Preprocessor.Preprocessor.Fixup` | ConfigHelper.cpp:122-163 | For every table and text on which it ends, fixup comes to what its rounds come to. |
| `Preprocessor.Preprocessor.Define` | ConfigHelper.cpp:77-106 | Associates the macro with its resolved definition; refuses bad names, raises as fixup does, and then changes nothing. |
| `Preprocessor.DefineSettles` | ConfigHelper.cpp:77-106 | A table in which no definition refers to a defined macro stays one after define if and only if neither the new definition nor another refers to the new macro. |
| `Preprocessor.DefineStaysPlain` | ConfigHelper.cpp:77-106 | Definitions without '$' make such a table, and define keeps them free of '$' if and only if all references of the new definition's text are defined. |
| `Preprocessor.SelfTurn` | ConfigHelper.cpp:137-158 | With a macro whose definition is its own reference between two texts, a turn from a position up to the reference replaces it and goes on where it ended; one from a later position finds nothing. |
| `Preprocessor.SelfReferenceNeverEnds` | ConfigHelper.cpp:137-158 | If that reference starts no earlier in the definition than its own length, no number of turns is the last. |
| `Preprocessor.SelfReferenceNests` | ConfigHelper.cpp:124-134 | Otherwise every round makes one replacement and the nesting error is raised. |
| `Preprocessor.SelfReference` | ConfigHelper.cpp:77-163 | For all names and '$'-free texts: such a definition resolves to itself while the macro is unknown, and from then on fixup ends on a text with the reference if and only if it starts earlier in the definition than its own length. |
| `GuidCodec.Encode` | Guid.cpp:274-294 | Writes the last bufSize - 1 digits, without leading zeros when they are all, and the terminator, within the buffer. |
| `GuidCodec.Decode` | Guid.cpp:296-317 | The number of the digits up to the first illegal character, in 64-bit words. |
| `GuidCodec.CaseDoesNotMatter` | Guid.cpp:304-304 | In base 36 two texts that differ only in the case of letters decode alike. |
| `GuidCodec.Stops` | Guid.cpp:296-317 | A text decodes to the same number as the part of it in front of its first illegal character. |
| `GuidCodec.ParsedDigits` | Guid.cpp:274-317 | The digits written are those of the identifier modulo a power of the base. |
| `GuidCodec.RoundTrip` | Guid.cpp:271-317 | Decoding the encoding gives the identifier modulo base^(bufSize-1), and no word on the way overflows. |
| `GuidCodec.RoundTripExactly` | Guid.cpp:271-317 | Every identifier comes back if and only if the buffer has at least 12 characters in base 62, 14 in base 36. |
| `GuidCodec.LargestInBase62` | Guid.cpp:271-294 | The largest identifier is LygHa16AHYF in base 62. |
| `GuidCodec.LargestInBase36` | Guid.cpp:271-294 | It is 3W5E11264SGSF in base 36. |

## Left out

- EvictorCache.Evictor.Poll: one step; interleavings inside poll and between calls are not modelled. Items are marked clean there without looking for a change made since they were streamed.
- EvictorRuns.StoreIsExact: without the save-completed-only flag; with it see `FullPollSaves` and `HeldForEver`.
- EvictorBatches.PartialPolls: without that flag; with it what is held back is queued again and may fill later batches.
- EvictorRuns.UnreportedIsOwed: counts a write as unreported also when it comes after a partial poll that has not reached the object yet; the class's own record, `owed`, goes by the object's state.
- Evictor: items are kept in a table and referred to by number instead of on the heap, and outside references are counted per item and per servant. One servant hosted under two identities counts as an outside reference of each.
- Evictor: a failing `marshal`, store timeouts and retries, time stamps, `_lastErr`, the statistics, `setSize`, and the null branches that follow from non-null servants.
- CritSectRuns.CritSectRec.Step: no weak-memory reordering, clock ticks or spin-count tuning, and no `Scope` wrappers.
- CritSectRuns.Progress: about stretches with the lock free; which of several threads gets it, and when its owner leaves, is not bounded.
- Md5.Context.Finalize: the block function is left open, so no RFC 1321 digest follows; the code's `rotate_left` is not that standard's rotation.
- Sha1.Context.Final: the wiping of the context is not claimed to clear memory; a context must be initialised again before further use.
- BufferPool.BufferPool.Initialize: not for the sizes with which a block would not even hold its link word.
- BufferList.BufferList.Fill: says what the contents become for lists whose pages but the last are full; after a fill in the middle the next one is covered page by page only. The bytes to fill are a value, so a source that overlaps the list's own pages is not modelled; nor is `join` with a payload longer than the piece.
- Preprocessor.CycleNeverResolves: which of the two it is, the nesting error or no end, is settled for a macro that refers to itself only (`SelfReference`).
- Preprocessor.FixupExpands: for texts and definitions in which each `$` begins a reference; for other texts see `PlainEnds`.
- LruMap.KeepsExactly: not with erasures, after which fewer keys are kept.
- `RWLock`, `Guid::toCompactIdstr`, `FloatWindowCounters`, file hashing, hex printing, logging, destructors and locks around single calls: easy, or not specified.

# VoidCache in Dafny

A model of VoidCache, a sharded in-memory cache with a RESP front end, and proofs
about it. The parts are those of the program: the shard engine and its allocator
(`src/voidcache.c`), the write-ahead log in the same file, the RESP parser, buffers
and connection loops (`net/proto.c`, `net/server.c`, `cli/vcli.c`), and the SCAN and
typed-value commands (`net/commands.c`).

How it is laid out:

- `Bytes`, `SlabClasses`, `Entries`: bytes, size classes and the 32-byte entry
  payload, in which a cell is a byte or one byte of a pointer.
- `Table`: one open-addressing table as a sequence of slots. `Cache`: 64 of them over
  one slab allocator; every public operation is a function from state to state.
  `ShardTable` and `CacheObject` are the same code as objects updated in place, each
  method proved to do what its function says.
- `CacheInvariant`, `CacheSteps`, `CacheStore`, `CacheBags`: the invariant of every
  reachable cache, kept by every operation with no premise on it. A set over an expired
  entry leaves two entries of one key, so what a cache stores is a bag of records, and
  every run moves the bag. `CacheRuns`: while no set hits an expired entry the bag is a
  map, and every run refines it.
- `CacheLaws`: conservation of slab blocks, counters, eviction, over every run.
  `PushOuts`, `StaleSets`, `SlabRoom`: when a set evicts or loses an entry, when it can
  be read back, when it is refused memory, each told from the cache before the call.
  `Duplicates`: what a set does to reads of another key. `CacheAsMap`: below the
  eviction threshold the cache is a plain map.
- `Seqlock`, `Treiber`: the shard lock protocol and one slab free list as state
  machines over single memory accesses by any number of threads. `Readers`: gets that
  end, retry and give the lock back. `Shelf`,
  `ShardWriters`: the loops of set, delete and flush as programs that make one store at
  a time. `WriterTrace`, `WriterAlone`: what a whole section does to the table, under
  interference and without. `ConcurrentGet` joins them: linearizable reads over every
  interleaving.
- `Wal`, `WalReplay`: the ring byte by byte, and replay against the cache.
- `Resp`, `RespStream`: the parser as a function of the bytes received, stability under
  later bytes, independence of how reads split the stream, and the encoder it inverts.
  `RespGrammar`, `RespInline`: exactly which bytes are a command, and which.
  `RespParser`, `Connection`: the loops and buffers.
- `Scan`, `Typed`, `Counters`: the cursor walk, typed values written, stored and read
  back, and the commands that count.

Entries are counted with weight functions: `Sum(t, w)` adds `w` over the LIVE entries
of a table, so one conservation lemma serves for entries, records and pointers.

Modelling choices:

- The hash and the checksum are arbitrary functions; lookup compares whole keys, so
  nothing rests on their quality. Clocks, `malloc` and `mmap` outcomes, socket reads
  and socket writes are parameters.
- `x & (cap - 1)` is written as reduction modulo `cap` by cases, which
  `Table.SlotArithmetic` shows to be the mask; capacities are powers of two as
  `vc_create` makes them.
- 8-bit probe distances, 32-bit counters and the 32-bit threshold product, the 16-bit
  value length, 64-bit log sequence numbers and 64-bit counters wrap or clamp as in C.
- `overcount`, `leaked`, `versions`, `since`, `Query.since`, `bags`, `jobs` and the
  fields of `Section` other than its job and place are history variables: they record
  what happened and no step reads them.

Where the code differs from what its comments and documentation say, the model follows
the code: the largest slab class is 2 MiB, not 64 KiB (`include/voidcache.h:80`), and
`*VC1` is followed directly by the type byte, with no line end (`net/proto.h:11`).

What turned out false of the code as written, and the exact condition proved instead:

- A set is not always readable at once: it can be shadowed by an expired entry of its
  key (`StaleSets.StaleSetIsLost`), or be itself the entry a full table gives up on
  (`StaleSets.SetLosesItself`). From every reachable cache it is readable iff, once its
  old entry is out and the sweep is done, some slot gives way to it before the probe
  sequence meets an entry of its key (`StaleSets.SetReads`).
- A key does not always stay readable while others are set and nothing is pushed out:
  its fresh entry can be displaced behind an expired one of the same key
  (`Duplicates.DisplacedBehindStale`). It does if no expired entry of it is stored
  (`Duplicates.FreshKeyReads`); and a key with one entry does iff it is not pushed out
  (`Duplicates.OtherSetReads`).
- A set can lose an entry without reporting it (`PushOuts.SetLosesEntry`); it does iff
  its key reads as absent, the table is full and eviction finds nothing
  (`PushOuts.DropsIff`). The counter then runs ahead of the table by the entries lost
  (`CacheLaws.CountersAgree`).
- A block goes back to the class it came from iff the value had at most 65536 bytes
  (`SlabClasses.RecoveredClassIff`); values come back whole up to 65535 bytes.
- Reuse of a block can hand it out twice (`Treiber.ReuseGivesTwoOwners`). The free list
  is sound throughout a run iff every successful pop's link is current at its CAS
  (`Treiber.AllRunsSoundIff`).
- SCAN visits every key iff no page fills exactly at the last slot of a shard with
  keys behind it (`Scan.ScanVisits`, `Scan.ScanStopsEarly`).
- The log does not always reproduce the cache (`WalReplay.ReplayDiffers`). A call keeps
  it exact iff it is not a set that would evict or lose an entry, told before the call
  (`WalReplay.StaysExactIff`); it is exact over every run that stays below the threshold
  (`WalReplay.RoomyReplaysExactly`), and in general iff no key pushed out is still
  missing (`WalReplay.ReplayExactIff`).
- The scan of the ring at a restart does not always end where the log ends: after a wrap
  it can run on into an old record and revive a deleted key (`Wal.ScanReadsOld`,
  `WalReplay.WrappedRingRevives`). It gives exactly the records since the last wrap iff
  no record that checks lies at the write position (`Wal.ScanExactIff`).
- DECRBY does not take its amount away but adds it (`Counters.DecrByAdds`), because
  `cmd_incrby` reads the argument once more; the two agree iff the amount is 0 or the
  least 64-bit number (`Counters.DecrByIff`).
- The 32-bit threshold test means 85% iff the table has at most 2^25 slots
  (`CacheLaws.ThresholdExactIff`).

## Model

| member | source | states |
|---|---|---|
| SlabClasses.SlabClassFor | src/voidcache.c:212-218 | the class loop computes `ClassFor` |
| SlabClasses.ClassForIsSmallestFit | src/voidcache.c:208-218 | a size up to 2 MiB gets the smallest class that holds it |
| SlabClasses.RecoveredClassIff | src/voidcache.c:335-337 | the class recomputed from the clamped length is the allocating class iff the value has at most 65536 bytes, and never a larger one |
| Cache.ArenaBlocksFillArena | src/voidcache.c:222-240 | the blocks of each class fill its 16 MiB arena exactly |
| Cache.ShardIsTop | src/voidcache.c:350-352 | the shard of a hash is its top six bits |
| Entries.MakeItemPtrs | src/voidcache.c:680-721 | each of the four layouts holds exactly the buffers allocated for it |
| Entries.LayoutRoundTrip | src/voidcache.c:296-316 | reading an entry back gives its key and its value, whole up to 65535 bytes and else the first 65535, in every layout |
| Table.SlotArithmetic | src/voidcache.c:354-361 | home slot, next slot and distance are the code's masks with the capacity less one, for every power of two |
| Table.FindFirst | src/voidcache.c:386-406 | lookup is decided by the first matching slot of the probe sequence |
| Table.FindExact | src/voidcache.c:368-407 | with unbroken chains and one slot per key, lookup returns a slot iff it is LIVE, matches and has not expired |
| Table.InsertConserves | src/voidcache.c:449-497 | the LIVE entries after insertion are those before plus the new one, less one entry iff no slot was vacant |
| Table.InsertKeepsChain | src/voidcache.c:449-497 | displacement and tombstone reuse leave no EMPTY slot between an entry's home and its slot, and make no slot EMPTY |
| Table.InsertKeepsDistances | src/voidcache.c:474-495 | every stored probe distance is the true cyclic distance modulo 256 for every power-of-two capacity |
| Table.EvictExact | src/voidcache.c:416-442 | the victim is the first unreferenced LIVE entry past the hand, exactly the LIVE entries passed lose their bit, nothing else changes, and a failed sweep clears every bit |
| Table.SecondSweepEvicts | src/voidcache.c:427-441 | two sweeps in a row evict if any entry is LIVE |
| Table.OnlyDiesKeeps | src/voidcache.c:433-435 | eviction, delete and flush keep chains and distances |
| StaleSets.LandsOnFirst | src/voidcache.c:454-496 | an inserted entry lands on the first slot that gives way to it and no earlier slot changes |
| StaleSets.InsertReads | src/voidcache.c:386-496 | after an insertion lookup gives the new entry if it lands before every old one of its key, and otherwise what it gave before, whatever the table holds |
| StaleSets.SetReads | src/voidcache.c:655-748 | from every reachable cache an accepted set reads back at once iff its entry would land before every old one of its key: the value set, up to 65535 bytes of it, and then until its TTL in seconds has passed |
| StaleSets.ReadableStays | src/voidcache.c:727-733 | a set of a key that can be read can be read |
| StaleSets.SetOverStale | src/voidcache.c:726-743 | a set of a key that is stored but reads as absent reads back iff every entry of the key that eviction leaves has a slot before it that gives way |
| StaleSets.StaleSetIsLost | src/voidcache.c:727-733 | a reachable state in which a successful set stays invisible, for every hash and every short pair |
| StaleSets.SetLosesItself | src/voidcache.c:449-497 | with no expired entry anywhere, a successful set whose own entry is the one given up on |
| CacheSteps.TakeOutKeeps | src/voidcache.c:729-732 | taking a LIVE entry out of its table removes exactly its record |
| CacheSteps.ReleaseKeeps | src/voidcache.c:325-344 | freeing an entry's buffers leaves the bytes of every other entry alone and every block with one owner |
| CacheSteps.EvictKeeps | src/voidcache.c:735-739 | eviction removes exactly one record, or none |
| CacheSteps.ClockKeeps | src/voidcache.c:836-836 | setting or clearing clock bits changes nothing the cache stores |
| CacheStore.AllocateKeeps | src/voidcache.c:678-721 | the buffers of a set are owned by the entry about to be inserted and nothing else |
| CacheStore.RefusedUnchanged | src/voidcache.c:688-699 | a refused allocation leaves the cache as it was |
| CacheStore.AttachKeeps | src/voidcache.c:741-742 | insertion adds exactly the new record, beside an expired one of its key or not, and loses at most the record given up on |
| CacheBags.LookupStored | src/voidcache.c:368-407 | in every reachable cache lookup finds only a stored fresh record of the key, and misses only if none is stored or one that is has expired |
| CacheBags.FlushEmpties | src/voidcache.c:880-897 | a flush leaves nothing stored and keeps the invariant |
| CacheBags.CreateBag | src/voidcache.c:583-631 | a new cache stores nothing and has every block free |
| CacheBags.StepMoves | src/voidcache.c:655-897 | every operation on every reachable cache keeps tables, ownership, arena and counters well formed and moves the bag of records as its kind says, whatever the clocks |
| CacheBags.EveryRunMovesABag | src/voidcache.c:583-897 | every run from an empty cache is a run of the bag |
| CacheBags.EveryReachableTable | src/voidcache.c:368-497 | after every run no EMPTY slot breaks a probe chain, every stored distance is the true one modulo 256 and no slot is BUSY |
| CacheBags.EveryGetWasSet | src/voidcache.c:754-840 | after every run a get that answers gives the value of some set of that key in the run, not flushed since and not expired |
| CacheRuns.OneSlotPerKey | src/voidcache.c:726-741 | each key has at most one LIVE slot |
| CacheRuns.LookupExact | src/voidcache.c:368-407 | lookup in any reachable cache answers as the reference map |
| CacheRuns.SetRefines | src/voidcache.c:655-748 | a set adds its pair to the map and removes exactly the keys it reports as pushed out; it fails only for bad arguments or a refused allocation |
| CacheRuns.GetRefines | src/voidcache.c:754-840 | a get returns the mapped value iff the key is present and not expired |
| CacheRuns.DelRefines | src/voidcache.c:846-874 | a delete succeeds iff the key is present and not expired, and removes only that key |
| CacheRuns.StepRefines | src/voidcache.c:655-897 | every operation keeps the whole invariant and refines the map operation |
| CacheRuns.CreateInv | src/voidcache.c:583-631 | a new cache is the empty map |
| CacheRuns.MapStep | src/voidcache.c:655-897 | on a bag that is a map every step of the bag is the map operation, if the key being set is not stored expired |
| CacheRuns.RunKeeps | src/voidcache.c:655-897 | after every run that sets no stored key over its expired entry the records stored are the pairs of the reference map |
| CacheRuns.RunsRefineMap | src/voidcache.c:655-897 | after every such run a lookup gives the value last set and not since deleted, evicted, pushed out or flushed |
| CacheLaws.RunLeaks | src/voidcache.c:741-742 | every run leaks one entry for each set that gives up on a key, and no other |
| CacheLaws.BlocksConserved | src/voidcache.c:248-344 | after every run each arena block is on one free list once or referred to by exactly one entry |
| CacheLaws.ClassesConserved | src/voidcache.c:220-344 | with values of at most 65536 bytes and nothing pushed out, each class's blocks are its own free list and the LIVE entries |
| CacheLaws.RunSettles | src/voidcache.c:382-390 | over any run tables keep their size and no slot returns to EMPTY |
| CacheLaws.CountersAgree | src/voidcache.c:903-915 | after every run every shard counts its LIVE slots plus the entries lost since the last flush; with none lost, `vc_stats` totals the LIVE slots |
| CacheLaws.ThresholdExact | src/voidcache.c:736-739 | up to 2^25 slots the 32-bit test is exactly 100 count >= 85 cap |
| CacheLaws.ThresholdExactIff | src/voidcache.c:736-737 | for every power of two below 2^32 the test is the 85% comparison for all counts iff the capacity is at most 2^25 |
| PushOuts.DropsIff | src/voidcache.c:723-742 | from every reachable cache a set gives up on an entry iff it is accepted, its key reads as absent, no slot is vacant, and the shard is below the threshold or every LIVE entry is referenced |
| PushOuts.SetLosesEntry | src/voidcache.c:449-497 | two sets into a cache of one slot per shard, both successful, the second losing an entry with nothing evicted |
| PushOuts.EvictsIff | src/voidcache.c:723-739 | from every reachable cache a set evicts iff it is accepted and, once its own fresh entry is out, the shard is over the threshold with an unreferenced LIVE entry |
| CacheLaws.ReadKeyNotEvicted | src/voidcache.c:427-430 | a key with one entry that was just read is not the one the next set of another key evicts |
| Duplicates.OtherSetReads | src/voidcache.c:655-748 | a fresh key with one entry reads the same after a set of another key iff it was not pushed out |
| Duplicates.FreshKeyReads | src/voidcache.c:386-400 | a key of which no expired entry is stored reads on after a set of another key, as some value stored for it before, unless an entry of it is pushed out |
| Duplicates.ReadKeySurvives | src/voidcache.c:427-430 | a key with one entry that was just read reads the same after the next set unless that set loses an entry, which can be told before the call |
| Duplicates.DisplacedBehindStale | src/voidcache.c:474-495 | a reachable state in which a set of another key, evicting and losing nothing, makes a readable key unreadable |
| SlabRoom.ClassFills | src/voidcache.c:220-344 | the free blocks and the LIVE values of a class are together its blocks |
| SlabRoom.RefusedIff | src/voidcache.c:686-699 | over every run with values of at most 65536 bytes that loses no entry, a set of such a value is refused memory iff its class is full of LIVE values or its key needs a `malloc` that fails |
| SlabRoom.RefusedExactly | src/voidcache.c:678-721 | from any cache a set is refused memory iff its arguments are valid, the pair exceeds 32 bytes, and for a value up to 2 MiB the least class that holds it has no free block or the key exceeds 24 bytes and `malloc` fails, for a larger one `mmap` or `malloc` fails |
| CacheAsMap.SizeIs | src/voidcache.c:903-913 | the LIVE slots of all shards are as many as the records stored |
| CacheAsMap.ShardSizeIs | src/voidcache.c:350-352 | the LIVE slots of a shard are as many as the keys of the map that hash to it |
| CacheAsMap.KeysCounted | src/voidcache.c:903-915 | after every run without a lost entry the reported key count is the number of records stored |
| CacheAsMap.KeysOfMapCounted | src/voidcache.c:903-915 | if no set hit an expired entry it is the size of the map |
| CacheAsMap.SetHasRoom | src/voidcache.c:735-742 | a set that finds fewer other keys in its own shard than 85% of the table pushes nothing out, for every capacity |
| CacheAsMap.InlineNeverRefused | src/voidcache.c:678-684 | a run that sets only pairs that fit their slot is never refused memory |
| CacheAsMap.CacheIsMap | src/voidcache.c:655-897 | over every run whose sets find their shard below the threshold, hit no expired entry of their key and are refused no memory, a lookup answers as a map of the values as set, up to 65535 bytes of each, for as many seconds as their TTL says |
| ShardTable.Slab.Alloc | src/voidcache.c:248-265 | takes the top block of the class, or reports exhaustion and changes nothing |
| ShardTable.Slab.Free | src/voidcache.c:267-281 | puts the block on top of the class |
| ShardTable.Slab.FreeEntry | src/voidcache.c:325-344 | frees key buffer and value buffer as `Release` says |
| ShardTable.ShardObject.FindSlot | src/voidcache.c:368-407 | the probe loop computes `Find` |
| ShardTable.ShardObject.EvictOne | src/voidcache.c:416-442 | the sweep in place computes `Evict`, frees the victim's buffers and moves the hand to it |
| ShardTable.ShardObject.Insert | src/voidcache.c:449-497 | the displacement loop in place computes `Table.Insert` |
| CacheObject.CacheHandle.constructor | src/voidcache.c:583-631 | 64 empty tables and full free lists |
| CacheObject.CacheHandle.AllocateBuffers | src/voidcache.c:678-721 | the allocations of the layout branches, undone when the key buffer is refused |
| CacheObject.CacheHandle.SetValue | src/voidcache.c:655-748 | a valid set is logged first; the new state and the reply are those of `Cache.Set` |
| CacheObject.CacheHandle.GetValue | src/voidcache.c:825-839 | the new state and the reply are those of `Cache.Get` |
| CacheObject.CacheHandle.DeleteKey | src/voidcache.c:846-874 | the call is logged first; the new state and the reply are those of `Cache.Del` |
| CacheObject.CacheHandle.FlushAll | src/voidcache.c:880-897 | the new state is that of `Cache.Flush` |
| CacheObject.CacheHandle.CountKeys | src/voidcache.c:903-913 | the sum of the shard counters |
| Seqlock.ReadStepOk | src/voidcache.c:386-406 | while the sequence number is the one a reader began with, every access shows the reader's version |
| Seqlock.StepKeeps | src/voidcache.c:156-195 | every step of every thread keeps the protocol invariant |
| Seqlock.AllRunsSafe | src/voidcache.c:786-839 | over every interleaving write sections exclude each other, `seq` is odd exactly while one is open, and every finished get answers as lookup on the one version of its begin sequence |
| Seqlock.ValidatedIsLatest | src/voidcache.c:184-187 | validation succeeds only while the version read is the latest |
| Readers.NextEnabled | src/voidcache.c:786-839 | a get waits for nothing but an even counter and the free lock |
| Readers.GetAlone | src/voidcache.c:786-839 | a get that nobody disturbs ends: it returns the fields of the entry lookup finds and sets its clock bit, or reports a miss; it takes the lock iff the value is inline and leaves it free; nothing else changes |
| Readers.EightTries | src/voidcache.c:786-825 | whatever other threads do, a get reads without the lock until its validation has failed eight times or it meets an inline value, and takes the lock only then |
| Readers.LockGivenBack | src/voidcache.c:156-170 | over every interleaving the lock is taken exactly while some thread holds it |
| Shelf.ShelvedLookup | src/voidcache.c:368-407 | on one shard lookup finds only a stored fresh record and misses only if none is stored or one that is has expired |
| Shelf.StatesAreShelved | src/voidcache.c:583-897 | every shard of every reachable sequential cache meets what the concurrent model starts from |
| ShardWriters.AllocatedMayStart | src/voidcache.c:670-721 | what a set allocates before it takes the lock is its own, as the concurrent model asks of an entry about to be inserted |
| ShardWriters.MicroKeeps | src/voidcache.c:416-497 | every single store of set, delete and flush keeps the shard and what the writer holds well formed, and accounts for every record |
| ShardWriters.ClockMeanwhile | src/voidcache.c:818-818 | a reader setting a clock bit in the middle of a section disturbs nothing |
| ShardWriters.MemMeanwhile | src/voidcache.c:325-344 | other threads changing memory that is not this shard's or its writer's disturb nothing, even while a freed slot still says LIVE |
| ShardWriters.ClosedMoves | src/voidcache.c:723-747 | a finished section moved the bag of records as its job says |
| WriterTrace.MicroFollows | src/voidcache.c:416-497 | however far a section is, what is left of it leads to the table of the sequential code: every store of a set, delete or flush keeps that |
| WriterTrace.ClockFollows | src/voidcache.c:818-818 | so does a reader that sets a clock bit meanwhile |
| WriterTrace.MemFollows | src/voidcache.c:325-344 | so do other threads that change memory of their own |
| WriterTrace.SectionDid | src/voidcache.c:723-747 | a finished set took out the entry lookup finds in the version before and perhaps one LIVE victim, and left the table that sequential insertion makes of the rest, clock bits aside; it gave an entry up iff no slot was vacant then. A delete took out just the entry lookup finds, a flush every LIVE one |
| WriterAlone.SetAlone | src/voidcache.c:723-747 | a set section that runs undisturbed, store by store, leaves the table, clock bits included, and the memory of the sequential set, sweeping from the hand iff the counter is over the threshold |
| WriterAlone.DelAlone | src/voidcache.c:856-872 | the same for a delete |
| WriterAlone.FlushAlone | src/voidcache.c:880-897 | the same for the flush of a shard |
| ConcurrentGet.EndIsWriteEnd | src/voidcache.c:745-745 | what a section commits can be read |
| ConcurrentGet.ActKeeps | src/voidcache.c:156-897 | every store of every writer and every access of every reader keeps the joint invariant |
| ConcurrentGet.SectionsEnd | src/voidcache.c:427-495 | however other threads interleave, a writer makes at most 11 cap + 9 steps inside one section |
| ConcurrentGet.WriterGoesOn | src/voidcache.c:723-747 | a writer in its section is never stuck: it can copy a field, make its next store or close |
| ConcurrentGet.ReadsAreLinear | src/voidcache.c:754-840 | over every interleaving the committed versions form one sequence, each got from the one before by its set, delete or flush, table and records (`WriterTrace.JobDid`), and every finished get answers from one version no older than the call |
| ConcurrentGet.ValueWhenDecided | src/voidcache.c:799-838 | when a lock-free get validates, and while a locked one holds the lock, the copied fields lead in memory as it is then to a fresh record of the latest version |
| ConcurrentGet.ReadIsMap | src/voidcache.c:754-840 | where the version stores a map the get answers as the map does |
| Treiber.StepKeeps | src/voidcache.c:253-278 | every step keeps the list acyclic and every block free or with one owner, even after a stale link was read |
| Treiber.AllRunsSafe | src/voidcache.c:248-281 | over every interleaving in which no block whose link a popper has read is pushed back before its CAS, pops and pushes are those of a sequential stack |
| Treiber.AllRunsSoundIff | src/voidcache.c:248-281 | over every interleaving the free list is sound after every step iff every successful pop's link is current at its CAS, and then it refines a sequential stack |
| Treiber.FreshInv | src/voidcache.c:233-241 | the list built at start holds every block once |
| Treiber.PopSoundIff | src/voidcache.c:255-261 | a successful pop keeps the stack sound iff the link it read is current |
| Treiber.ReuseGivesTwoOwners | src/voidcache.c:255-261 | a run with reuse hands one block to two threads |
| Wal.HeaderFields | include/voidcache.h:224-239 | where each field lies in the 64-byte header |
| Wal.HeaderBytes | src/voidcache.c:552-565 | the header byte by byte: magic, operation, lengths, TTL, checksum, number and time, low-order bytes first, zeros between |
| Wal.ReadsBack | src/voidcache.c:552-570 | the header and payload of a record read back as written |
| Wal.AppendKeeps | src/voidcache.c:542-575 | an append keeps the records since the last wrap laid out one behind the other, inside the ring, 8-aligned, with consecutive numbers |
| Wal.AppendPlaces | src/voidcache.c:542-575 | an append starts over at offset 0 iff the bytes used and its own, rounded up to 8, exceed the ring, else it goes right behind them, and no other byte changes |
| Wal.WrapsNeverIff | src/voidcache.c:549-550 | a run wraps nowhere iff its records, padded, fit |
| Wal.WalkRecovers | src/voidcache.c:552-570 | walking headers up to the write position recovers exactly the records laid out, in order |
| Wal.ScanExactIff | README.md:310-312 | the scan of the whole ring gives the records since the last wrap and what follows them, and just those iff no record that checks lies at the write position |
| Wal.ScanAfterRun | README.md:310-312 | in a new ring of at least the bytes the records occupy, 64 + key + value each rounded up to 8, the scan gives exactly the records appended |
| Wal.ScanReadsOld | src/voidcache.c:549-575 | a wrapped run whose scan reads a record older than some that are gone |
| Wal.WalkAfterRun | src/voidcache.c:536-577 | after any run of appends the walk to `write_pos` gives, with consecutive numbers, exactly the records since the last one that did not fit behind those before it |
| Wal.SinceIsSuffix | src/voidcache.c:549-550 | the records since the last wrap are the last records appended, all of them if the ring never wrapped |
| Wal.WalRing.AppendRecord | src/voidcache.c:536-577 | the in-place append computes `Append` |
| WalReplay.StepMirrors | src/voidcache.c:666-668 | one logged call moves replay and memory alike |
| WalReplay.ReplayAgrees | src/voidcache.c:666-742 | after every run of TTL-0 calls without flush or failed allocation, memory is the replayed log less the keys pushed out and not written since |
| WalReplay.ReplayExactIff | README.md:303-312 | the log reproduces the cache iff no key pushed out is still missing |
| WalReplay.StaysExactIff | src/voidcache.c:666-742 | a call keeps the log exact iff it is not a set that would evict or lose an entry, judged on the cache before the call |
| WalReplay.RoomyReplaysExactly | README.md:303-312 | if every set finds its shard below 85% of the table the log reproduces the cache exactly |
| WalReplay.ReplayDiffers | src/voidcache.c:666-742 | a run of two sets whose log replays to a different map |
| WalReplay.OneRecordBehind | src/voidcache.c:666-668 | with a call's record appended and the table untouched memory is the log without it, after the call memory is the whole log, and the record changes no key but its own |
| WalReplay.RingReplays | README.md:310-312 | what a restart reads, scanning a new ring that the padded records fit into to the first bad record, replays to the same map |
| WalReplay.WrappedRingRevives | README.md:310-312 | after a wrap it need not: a deleted key comes back, in either order of replay |
| Resp.ParseStable | net/proto.c:120-221 | a decided parse is unchanged by any bytes that follow |
| RespStream.ChunkIndependence | net/server.c:184-228 | what a connection dispatches depends only on the bytes received |
| RespStream.SplitsAgree | net/server.c:205-228 | two ways of splitting the same bytes leave the same connection |
| RespStream.NumberRoundTrip | net/proto.c:99-109 | a printed number parses back iff it fits an int64 |
| RespInline.NegativeNumber | net/proto.c:99-109 | the same for negative numbers |
| RespStream.ParseEncoded | cli/vcli.c:399-408 | an encoded command is consumed exactly iff it has at most 128 arguments of at most 65536 bytes, else it is an error; each argument comes back as sent less its `*VC1` header and type byte, the letters among the first 64 bytes of the name as capitals, and the type byte is that of the second argument |
| RespStream.ArgsUnchangedIff | net/proto.c:188-199 | arguments come back unchanged iff none carries a typed-value header |
| RespStream.PrefixAsksForMore | net/proto.c:128-186 | every strict prefix of an encoding asks for more |
| RespStream.PipelineInChunks | net/server.c:205-228 | a pipeline of encoded commands, cut anywhere into reads, is dispatched in order, each as sent, all of them or those up to the first that closes the connection, with nothing left |
| RespStream.ErrorEnds | net/server.c:213-218 | bytes that are no command end the connection: the commands before them are dispatched as sent, nothing behind them is read |
| RespGrammar.NumbersExactly | net/proto.c:99-109 | `parse_int64` accepts exactly white space, a sign or none and digits, at most 31 bytes in all and within 64 bits, at the value they stand for |
| RespGrammar.AcceptsExactly | net/proto.c:161-221 | on bytes that start with `*` the parser returns a command of n bytes iff the first n bytes are a count up to 128 and so many bulk strings of the length each says, up to 65536; and then the command is what those strings come to |
| RespGrammar.ErrsExactly | net/proto.c:161-221 | on such bytes it reports an error iff they hold a bad count, or a good one, fewer bulk strings than it says and then something that is none; otherwise it asks for more |
| RespGrammar.InlineMore | net/proto.c:130-140 | on other bytes it asks for more iff there is no line end yet |
| RespInline.InlineExactly | net/proto.c:130-159 | a line that does not start with `*`, ended by LF or CR LF, returns its words, the first 128 of them, cut at blanks and tabs and each up to its first NUL; a line without words is an error |
| RespInline.EveryLine | net/proto.c:130-159 | every line is words with blanks around them |
| RespParser.FindLineEnd | net/proto.c:91-95 | the loop computes `FindCrlf` |
| RespParser.ReadInt64 | net/proto.c:99-109 | the loops compute `ParseInt64` |
| RespParser.ReadInline | net/proto.c:130-159 | the loops compute `ParseInline` |
| RespParser.ReadCommand | net/proto.c:120-221 | the loops compute `Parse`, what `RespGrammar.AcceptsExactly` and `RespInline.InlineExactly` are about |
| RespParser.WriteCommand | cli/vcli.c:399-408 | the encoding, or failure iff it does not fit the buffer; with no arguments, what the code returns untested |
| Connection.Buffer.Grow | net/proto.c:38-47 | makes room and keeps contents and cursor, or fails and changes nothing iff there is neither room nor memory |
| Connection.Buffer.Append | net/proto.c:235-239 | appends exactly the bytes, or fails and appends none |
| Connection.Buffer.Consume | net/proto.c:53-58 | drops exactly the first bytes, in place |
| Connection.Reader.Process | net/server.c:184-228 | one round of reading and dispatching computes `Receive`, or closes the connection iff the read buffer has no room and cannot grow |
| Connection.Writer.FlushTo | net/server.c:165-178 | a flush moves exactly the bytes the socket takes from pending to sent, in order; it returns 0 iff none is left, and else 1 iff the first result that wrote nothing was a would-block, -1 iff it was zero or an error |
| Connection.Writer.Session | net/server.c:230-242 | over every run of replies and partial flushes, sent then pending bytes are the replies that found room, in order, and with memory to grow all of them do; the connection is closed at the first flush that leaves bytes behind on a socket that is not full, and at no other |
| Scan.ScanPage | net/commands.c:551-578 | the nested loops return the first COUNT LIVE positions from the cursor and the next cursor |
| Scan.PageIs | net/commands.c:551-578 | a page holds the first COUNT LIVE positions from the shard in bits 20 to 25 of the cursor and the slot in its low 20 bits; the next cursor is the position behind them, 0 if the page is not full or ends on the last slot of a shard |
| Scan.LiveFromExact | net/commands.c:559-574 | those positions are exactly the LIVE ones, each once, in order |
| Scan.CursorsIncrease | net/commands.c:575-578 | nonzero cursors strictly increase |
| Scan.ScanVisits | net/commands.c:551-578 | a whole iteration returns LIVE positions only, none twice, and all of them iff no page fills exactly at the last slot of a shard with LIVE slots behind it |
| Scan.ScanStopsEarly | net/commands.c:575-578 | an iteration that stops after the first of 64 keys |
| Typed.WriteInt64 | net/proto.c:323-328 | the byte loop writes the two's-complement bytes, least significant first |
| Typed.Int64RoundTrip | net/commands.c:846-853 | every int64 is read back from its bytes |
| Typed.CutExact | net/commands.c:806-818 | what is cut out of the written bulk string is magic, type and payload, for every payload |
| Typed.DecodeStored | net/commands.c:833-875 | every typed value is decoded from what was stored |
| Typed.StoredBytes | net/proto.c:312-347 | the stored form byte by byte: `*VC1`, the letter of the type, the payload, integers low-order byte first |
| Typed.DecodeClampedIff | net/commands.c:833-875 | after the store's clamp it still is iff the stored form has at most 65535 bytes |
| Typed.ThroughTheStore | net/commands.c:773-882 | from every reachable cache a typed value set and got through the cache is there iff the set can be read back, and is then the value set iff its stored form has at most 65535 bytes |
| Typed.PlainThroughTheStore | net/commands.c:824-882 | a value set plainly comes back from VCGET as plain bytes iff it does not start with a typed header |
| Counters.CounterReadsBack | net/commands.c:398-406 | a counter stored by INCRBY is recognised and read back exactly |
| Counters.CounterStarts | net/commands.c:396-411 | a counter starts from 0 if the key is absent, from a stored counter exactly, and from any other value as text |
| Counters.TextExactly | net/commands.c:406-410 | as text a value counts as the number its first 31 bytes start with, brought into 64 bits, and as 0 if they start with none |
| Counters.CounterSums | net/commands.c:389-419 | from every reachable cache, after any series of INCRBY calls whose sets are accepted and whose first can be read back, a get reads start plus deltas, wrapped to 64 bits |
| Counters.TextIncr | net/commands.c:390-421 | INCRBY of a key that reads as a decimal text leaves a counter of the sum, wrapped to 64 bits |
| Counters.DecrByIff | net/commands.c:390-436 | INCR adds 1 and DECR takes 1 away, but with an amount all four commands add it, so DECRBY takes its amount away iff that is 0 or the least number |
| Counters.DecrByAdds | net/commands.c:433-436 | DECRBY of 1 makes 6 of 5 |

## Left out

- Weak memory orderings: the concurrent models are sequentially consistent.
- Wrap-around of the 64-bit shard sequence counter within one read.
- The lifetime of a pointer after `vc_get` returns: reads are about the entry at validation.
- The shard counter and the clock hand under concurrency: in the concurrent model any set may sweep or not, from any slot; the sequential model has the test, and `WriterAlone.SetAlone` ties the two.
- That other shards and allocators leave this shard's buffers alone is a guard of the concurrent model; `CacheLaws.BlocksConserved` shows it of the sequential cache, and `Treiber.AllRunsSoundIff` when one free list gives it.
- The order of concurrent log appends against table changes: the append is outside the shard lock, so replay is about sequential runs.
- Records larger than the ring, for which `wal_append` would write past its end.
- Replay of TTLs, and of checkpoints, which the code never writes.
- Keys of 4 GiB or more in `vc_get` and `vc_del`, whose length the code truncates.
- The part of a very large `mmap`ed value that `munmap` with the clamped length leaves mapped.
- Hit, miss, set and eviction statistics and `total_memory`, which nothing consults.
- The text of VCSET integers, booleans and floats: typed values start from the value parsed.
- SCAN replies: positions are modelled, not the copied key bytes; keys that hold a NUL are copied short by the code.
- A read of zero bytes, which closes a connection and discards what was read just before it.
- TLS, accept and epoll loops, authentication, cluster mode, the remaining commands, the CLI printer and the platform shims.

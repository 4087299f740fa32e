# Austin: a verified model of the sampler's data path

Austin samples the Python stacks of another process. This project models the part of it that turns
what it reads from that process into its output, and proves that part right: the caches it trusts, the
stacks it builds, the line tables it decodes, the bytes it emits, the range tree it looks addresses up
in, and the process list it keeps.

Code that updates things in place is modelled in place (classes, arrays, linked nodes) and proved
against a specification on values; the lemmas are about the specification.

| files | models |
|---|---|
| `HashModel`, `HashTable`, `Lookup` | chained hash table with sentinel heads, and the lookup that doubles it (`src/cache.c`) |
| `DoublyLinkedLists`, `LruModel`, `LruCache` | recency queue, LRU cache, its two growth policies and its deallocator (`src/cache.c`) |
| `Unwind` | the stack, and the unwinding of frame objects (`src/stack.h`, `src/py_thread.c`) |
| `LineTable`, `Lnotab` | the three line-table decoders (`src/frame.h`) |
| `FrameKeys`, `MojoModel`, `Mojo`, `MojoReader` | frame keys, the MOJO format, its writer and a reader (`src/mojo.h`) |
| `SamplerModel`, `RunInduction`, `SamplerRun`, `SampleBlocks`, `SamplerTruth`, `SamplerLimits`, `Sampler` | whole runs of the sampler: unwinding, resolution through the caches, emission (`src/py_thread.c`, `src/frame.h`) |
| `Interleave` | merging native and Python stacks (`src/py_thread.c`) |
| `RangeModel`, `RangeTree`, `VmMaps` | AVL range tree and the loop that feeds it (`src/linux/vm-range-tree.h`, `src/linux/py_proc.h`) |
| `ProcWorld`, `ProcList` | process list, pid index, discovery of children and updates (`src/py_proc_list.c`) |
| `Crc` | `crc32` (`src/linux/futils.h`) |

## Main results

1. **Runs read back** (`SamplerRun.EveryReferenceReads`, `SamplerLimits.ShowsExactly`, `Samplers.Record`).
   In the output of every run each reference follows a definition of its frame, and each frame those of its
   strings. Whatever the process does between samples, a reader sees every sample as the sampler resolved
   it, as if nothing had been cached, for all runs if and only if frames with different cache keys have
   different stored keys and strings different references. It rests on the frame cache being as large as
   the stack: no eviction while a stack is resolved frees a frame of that stack
   (`SamplerModel.FreesNoFrameOfStack`, `SamplerModel.ResolvedFramesLive`), and the second resolution that
   3.11+ does is silent (`SamplerModel.SecondResolutionIsSilent`).
2. **When bytes tell the truth** (`SamplerTruth.BytesTellTheStacks`, `SamplerLimits.TellsExactly`). While
   the process keeps its code objects and strings, the bytes of every run parse back to the true stacks
   of its samples, each up to the first frame that cannot be told, if and only if frames that share a
   cache key tell the same, so do frames that share a stored key, and strings that share a reference are
   equal. `LocatesEntry`, `LocatesSpan` and `LocatesRow` say what the true location is, on every
   well-formed line table of each version.
3. **What a run leaves** (`SampleBlocks.BytesAreBlocks`, `BytesAddUp`). The bytes of every run are one block
   for each sample that is reported: its identity, what is new in it, its frames, and the metrics of the mode
   in their order. When a sample is reported, which marks and which metrics it has is stated by its fields
   alone, and the metrics of the run are those of its samples.
4. **The heap structures refine simple values**: the LRU cache a bounded recency order
   (`LruModel.RunIsRecency`), the hash table a finite map, the AVL tree a sorted list with an exact
   search and a Fibonacci bound, the process list a least closed set.
5. **Unwinding is exact** (`Stacks.PyStack.UnwindFrameStack`, `Stacks.ClimbKeepsChain`): valid if and only if
   the back-chain ends in fewer than `size` readable frames, for any remote memory, cyclic or not; and there
   is one stack that it may leave (`Stacks.ChainIsOne`).

## What the proofs found

- **`excludeEmpty` excludes everything.** The test for an empty stack (`src/py_thread.c:903-905`) comes
  before the stack is unwound; the stack is empty then, so no sample is ever emitted
  (`Samplers.Sampler.EmitCollapsedStack`, `Samplers.Record`).
- **Frames may be taken for each other.** Instructions that fit 16 bits share a key exactly at the same
  place of codes that agree in 27 low bits (`FrameKeys.KeysAgree`). While one of them is cached the other
  resolves to it (`SamplerModel.SharedKeyHits`), and if they differ, two samples are enough for the output
  to be wrong (`SamplerLimits.DisagreementShows`; `SamplerLimits.DistantCodesMistold` is an example). A
  frame that has not started (`lasti == -1`) shares its key with all others that have not
  (`FrameKeys.UnstartedFramesCollide`).
- **On 3.10 a frame has two keys.** It is cached under its instruction and stored under the double of it.
  When the double does not fit 16 bits, frames that are cached apart may be stored under the same key, and
  three samples are enough for the output to be wrong (`SamplerLimits.StoredDisagreementShows`;
  `SamplerLimits.DoubledMistold` is an example). Otherwise they are not (`SamplerRun.ShortKeysApart`).
- **Strings may be taken for each other** when their addresses agree in 27 low bits
  (`SamplerLimits.OwnClashShows`, `ClashShows`, `ClashWithUntoldShows`).
- **The first mapped line can write before the array.** `prevpathname` outlives a call; if the first
  line with a path repeats the path left over, `ranges[-1]` is written (`src/linux/py_proc.h:658`).
  `VmMaps.MergeLines` says exactly when: the loop is safe if and only if it does not.
- **Equal lower bounds can crash an insertion**: the insertion goes right and the rebalancing test takes
  it for one on the left. A balanced tree of distinct bounds crashes exactly when the bound is that of a
  leaf which is the right child of a node without a left one (`RangeModel.CrashesExactly`). Disjoint
  non-empty ranges never do.
- **Key 0 never hits**, because the sentinel of a chain has that key (`HashModel.GetRefinesMap`).
- **An update of the process list can lose a child.** A pid that is still listed, though its process is
  not running, when its new parent is asked for its children is not added, and is then removed; the update
  is exact if and only if there is no such pid (`ProcLists.ProcList.Update`, with the condition
  `ProcWorlds.StillListed` on its inputs). `ProcLists.LosesChild` is such an update; it takes a pid that is
  reused between the checks.
- **An empty innermost stretch is not replaced.** Nothing marks its end, so its evaluation frame is emitted
  as a native frame (`Interleaving.EveryStretchIsSpliced`).
- Before 3.11 the end line of a frame is the first line of its code, not the line found.
- A location number is read back exactly when it is below 2^31 (`LineTable.VarintRoundTrip`).

## Assumptions

They are preconditions of the members that need them.

- Cache capacities are positive, and `lru_cache__store` follows a miss on the same nonzero key.
- Ranges given to the tree are non-empty and disjoint.
- Frames have nonzero cache keys.
- A line table covers fewer than 2^63 code units (`LineTable.UnstartedLocation`).
- In `SamplerLimits.TellsExactly` only: frames that tell the same and share a key have no strings that clash,
  and nor do the two strings of a frame that cannot be told (`SamplerLimits.Odd`). It takes an eviction, or
  a third frame, for such a clash to show.
- Pid 0 cannot be attached to.
- Readable memory and attachable and running processes are given.

## Model

| member | source | states |
|---|---|---|
| HashModel.GetRefinesMap | src/cache.c:251-260 | Lookup agrees with a finite map on nonzero keys; key 0 is never found, even if stored. |
| HashModel.SetRefinesMap | src/cache.c:273-299 | Set updates the map, keeps keys unique and in their bucket and `size` equal to the total chain length; it is refused exactly when the table is at capacity and the key is absent. |
| HashModel.DelRefinesMap | src/cache.c:303-319 | Deletion removes the key and nothing else; a bucket left empty becomes absent. |
| HashModel.RehashRefinesMap | src/cache.h:331-354 | Moving the entries to a larger table keeps every entry whose value is not NULL. |
| HashModel.RehashKeepsGet | src/cache.c:491-510 | No lookup can tell a table from its rehashed copy; a dropped NULL still reads as NULL. |
| HashModel.SetObserves | src/cache.c:273-299 | Below capacity no set is refused: storing a value maps the key to it, storing NULL hides the key. |
| HashModel.DelObserves | src/cache.c:303-319 | Deletion removes exactly the key from what can be observed. |
| HashModel.RehashObserves | src/cache.c:491-510 | Growth keeps all that can be observed and never enlarges the count. |
| HashTables.Chain.Add | src/cache.c:153-169 | Appending to a linked chain, or overwriting the value of a present key, does to its entries what the pure chain does. |
| HashTables.Chain.Remove | src/cache.c:172-188 | Unlinks the entry with the key and reports whether there was one. |
| HashTables.Chain.Find | src/cache.c:191-200 | Returns the value of the first entry with the key, the sentinel included. |
| HashTables.Chain.Has | src/cache.c:203-212 | True exactly when the sentinel or an entry has the key. |
| HashTables.HashTable.constructor | src/cache.c:226-239 | A new table is empty and valid. |
| HashTables.HashTable.Get | src/cache.c:250-260 | The array of chains returns what the pure table returns. |
| HashTables.HashTable.IsFull | src/cache.c:263-269 | True exactly from three quarters of the capacity on, rounded down. |
| HashTables.HashTable.Set | src/cache.c:272-299 | The new array, chains and size are those of the pure table after the same set. |
| HashTables.HashTable.Del | src/cache.c:302-319 | The same for a deletion, including dropping an emptied bucket. |
| HashTables.HashTable.MoveTo | src/cache.h:342-354 | Sets every entry with a value into another table, in iteration order, and leaves this one alone. |
| HashTables.MoveChain | src/cache.h:342-354 | One bucket of that iteration: NULL values are skipped. |
| Lookups.Lookup.Get | src/cache.c:482-488 | The value of a nonzero key that has one. |
| Lookups.Lookup.Set | src/cache.c:491-510 | Always takes effect: the load factor leaves room, growing when it must. |
| Lookups.Lookup.Grow | src/cache.c:496-507 | The capacity doubles, nothing is lost, and there is room for another key. |
| Lookups.Lookup.Del | src/cache.c:513-519 | Removes exactly the key. |
| Lookups.Lookup.Clear | src/cache.c:522-530 | Leaves nothing, at the same capacity. |
| DoublyLinkedLists.PushFront | src/cache.c:389-394 | Linking an item in front of a doubly linked list keeps it linked both ways. |
| DoublyLinkedLists.Unlink | src/cache.c:377-395 | Unlinking an item from any place keeps the rest linked, in order. |
| DoublyLinkedLists.CutLast | src/cache.c:81-100 | Cutting the last item keeps the rest linked. |
| LruCaches.Queue.Enqueue | src/cache.c:103-121 | A new item goes to the front unless the queue is full. |
| LruCaches.Queue.Dequeue | src/cache.c:80-100 | The item at the rear is unlinked and its value returned. |
| LruCaches.Queue.BringToFront | src/cache.c:376-395 | Relinking moves the item to the front and keeps the order of the others. |
| LruCaches.Queue.Destroy | src/cache.c:124-136 | Every value is deallocated, in order, once. |
| LruCaches.HashCapacity | src/cache.c:350 | The hash table is never smaller than the queue. |
| LruCaches.LruCache.constructor | src/cache.c:341-358 | An empty cache; 0 stands for an expanding one of 1024. |
| LruCaches.LruCache.MaybeHit | src/cache.c:361-398 | A hit returns the value and moves its pair to the front; a miss changes nothing; index and queue stay in step. |
| LruCaches.LruCache.Store | src/cache.c:407-436 | The pair is put in front; when full, an expanding cache doubles and a fixed one drops and deallocates exactly the last pair; index and queue stay in step. |
| LruCaches.LruCache.Expand | src/cache.c:411-425 | Doubling both structures changes no pair. |
| LruCaches.LruCache.Evict | src/cache.c:426-432 | The last pair leaves queue and index, and its value is deallocated. |
| LruCaches.LruCache.Destroy | src/cache.c:439-464 | Every value still held is deallocated. |
| LruModel.AccessIsRecency | src/cache.c:361-436 | After one use the cache holds the front of the new recency order, as much as fits. |
| LruModel.RunIsRecency | src/cache.c:361-436 | Over any run a fixed cache holds exactly its most recently used keys, in order; an expanding one holds them all. |
| LruModel.PassKeepsKeys | src/py_thread.h:36-44 | A pass no longer than the cache leaves every key it used in the cache. |
| LruModel.PassKeepsResults | src/py_thread.h:36-44 | And every value it got, under the key that asked for it. |
| LruModel.EvictsNoKeyUsed | src/cache.c:426-432 | What a use of such a pass evicts, and deallocates, was cached under no key used before it in the pass. |
| LruModel.SecondPassOnlyHits | src/py_thread.c:157-194 | A second pass over the same keys leaves the cache as it found it. |
| LruModel.SecondPassSameResults | src/py_thread.c:157-194 | And hits every time, with the same values. |
| LruModel.RunOwnership | src/cache.c:426-435 | Values stored are values held plus values deallocated, as multisets, over any run. |
| LruModel.DestroyFreesOnce | src/cache.c:439-464 | After destruction every stored value has been deallocated exactly once. |
| Stacks.EndingChainIsSimple | src/py_thread.c:386-419 | A back-chain that ends visits no address twice. |
| Stacks.GivingUpIsRight | src/py_thread.c:400-416 | Where unwinding gives up (unreadable, self-linked, full, cyclic) the chain does not end in fewer than `size` frames. |
| Stacks.ClimbIsRight | src/py_thread.c:386-419 | The loop calls a stack valid exactly when the chain ends in time, and then keeps all of it, with distinct origins. |
| Stacks.ClimbKeepsChain | src/py_thread.c:386-419 | What the loop keeps, frame by frame: each readable and not linked to itself, none twice but the last, up to the end of the chain or else to 2048 frames, a repeated one or one that cannot be taken. |
| Stacks.ChainIsOne | src/py_thread.c:386-419 | There is one stack and one verdict like that. |
| Stacks.PyStack.PyPush | src/stack.h:113-120 | Puts one frame on top, within the array. |
| Stacks.PyStack.HasCycle | src/stack.h:93-111 | True exactly when the top frame's origin occurs below it. |
| Stacks.PyStack.PushFrame | src/py_thread.c:197-224 | Fails on an unreadable or self-linked frame without a push; otherwise pushes it and steps back. |
| Stacks.PyStack.UnwindFrameStack | src/py_thread.c:385-419 | Terminates for any memory, stays within the array, and is valid if and only if the chain ends in fewer than `size` readable frames; the stack is then that chain. |
| Stacks.PyStack.UnwindIframeStack | src/py_thread.c:423-449 | The same for the interpreter frames of 3.11, which may start at NULL. |
| FrameKeys.KeysAgree | src/frame.h:94 | Instructions that fit 16 bits have the same key if and only if they are the same instruction of codes with the same reference. |
| FrameKeys.KeyForm | src/frame.h:94 | The key of an instruction of 16 bits, in numbers: 27 bits of the code above it. |
| FrameKeys.NegativeKey | src/frame.h:94 | The key of a negative instruction down to -2^16 is its own 64-bit value, whatever the code. |
| FrameKeys.UnstartedFramesCollide | src/frame.h:94 | With `lasti == -1` all code objects have the same key. |
| FrameKeys.DistantCodesCollide | src/frame.h:94 | Code objects that agree in 27 low bits have the same key at every instruction, negative ones included. |
| FrameKeys.DoubledKeysAgree | src/frame.h:232-266 | Instructions from -2^15 to 2^15 that have the same key when doubled have the same key. |
| LineTable.ReadVarint | src/frame.h:99-108 | The loop fills a 32-bit `int` from the 6-bit groups, lowest first, and stops on their last byte. |
| LineTable.VarintRoundTrip | src/frame.h:99-108 | An encoded number is read back if and only if it is below 2^31, and the reader stops on its last byte. |
| LineTable.ZigzagRoundTrip | src/frame.h:111-116 | Signs are read back. |
| LineTable.ReadEntry | src/frame.h:182-216 | One turn of the switch, in all five forms, computes the entry's location and last byte. |
| LineTable.ReadLocation | src/frame.h:182-222 | The loop computes the fold of the entries, or fails exactly when a read leaves the buffer. |
| LineTable.StepRoundTrip | src/frame.h:182-216 | On an encoded entry of any form one step yields what the entry says and stays aligned. |
| LineTable.ReachCovers | src/frame.h:219-221 | The entry at which decoding stops is the first whose units go past `lasti`. |
| LineTable.LocationRoundTrip | src/frame.h:182-222 | For every well-formed list of entries, whose numbers fit an `int`, and every `lasti >= 0`: lines and columns as the entries say up to the one that covers it. |
| LineTable.UnstartedLocation | src/frame.h:219-221 | For `lasti < 0`, which the comparison takes for unsigned, the location of the last entry. |
| LineTable.EntryKinds | src/frame.h:182-187 | The first byte of an entry, in numbers: kind and units. |
| LineTable.KnownEntries | src/frame.h:182-216 | Four entries, byte by byte, and where they lead. |
| LineTable.KnownLongEntry | src/frame.h:189-197 | One of the long form, with a number of two bytes. |
| Lnotab.ReadOldLine | src/frame.h:252-262 | The loop of versions before 3.10, with wrapping unsigned lines, computes the fold of its pairs. |
| Lnotab.AddByteIsSigned | src/frame.h:258-261 | Subtracting 0x100 and adding the byte, both wrapping, adds the signed byte. |
| Lnotab.OldLineIsExact | src/frame.h:252-262 | On any encoding of an increasing table, large deltas split in any way, the line of the interval that contains `lasti`. |
| Lnotab.EncodeRowsTables | src/frame.h:252-262 | Every increasing table has such an encoding. |
| Lnotab.KnownRows | src/frame.h:252-262 | A table of two rows, byte by byte, at every instruction. |
| Lnotab.ReadNewLine | src/frame.h:231-251 | The loop of 3.10 computes the fold of its pairs at byte `2 * lasti`. |
| Lnotab.NewLineIsExact | src/frame.h:231-251 | On any encoding of spans, with or without lines, the line of the span around the byte; a terminator ends the table. |
| Lnotab.EncodeSpansTables | src/frame.h:231-251 | Every sequence of spans has such an encoding. |
| Lnotab.KnownSpans | src/frame.h:231-251 | A table with a span on no line and a terminator, byte by byte, at every instruction. |
| MojoModel.IntegerRoundTrip | src/mojo.h:81-102 | A reader gets magnitude and sign back and stops right behind the number. |
| MojoModel.IntegerPrefixFree | src/mojo.h:81-102 | The encoding is injective and prefix-free on magnitude and sign. |
| MojoModel.RefIsShort | src/mojo.h:65-66 | A reference takes at most four bytes. |
| MojoModel.RefsAgree | src/mojo.h:66 | References are equal if and only if the addresses differ by a multiple of 2^27; an address below that is its own reference. |
| MojoModel.IntegerLayout | src/mojo.h:81-102 | Six bits and the sign in the first byte, seven in the others, lowest first, the high bit set in all but the last, and no more bytes than it takes. |
| MojoModel.EventNumbers | src/mojo.h:34-49 | The first byte of an event is its number, 1 to 12. |
| MojoModel.KnownEvents | src/mojo.h:122-152 | A stack, two metrics and two marks, byte by byte. |
| MojoModel.KnownFrame | src/mojo.h:128-136 | The fields of a frame in their order. |
| MojoModel.KnownReferences | src/mojo.h:138-161 | A definition and two references, byte by byte. |
| MojoModel.KnownStrings | src/mojo.h:110-144 | The header and the events of strings, byte by byte. |
| MojoModel.HexRoundTrip | src/mojo.h:122-126 | The thread id is read back from its hexadecimal form. |
| MojoModel.EventRoundTrip | src/mojo.h:117-161 | Every event is read back from its bytes, whatever follows. |
| MojoModel.StreamRoundTrip | src/mojo.h:110-161 | Every sequence of events is read back from its bytes. |
| Mojo.Writer.PutInteger | src/mojo.h:81-102 | The shifting loop appends the encoding of the integer. |
| Mojo.Writer.PutRef | src/mojo.h:106 | Appends the encoding of the 27 low bits. |
| Mojo.Writer.PutString | src/mojo.h:73-75 | Appends the string and its terminator. |
| Mojo.Writer.Header | src/mojo.h:110-115 | Appends the file header. |
| MojoModel.HeaderRoundTrip | src/mojo.h:110-115 | A reader gets the version and what follows the header. |
| Mojo.Writer.PutMetadata | src/mojo.h:117-120 | Appends a metadata event. |
| Mojo.Writer.PutStack | src/mojo.h:122-126 | Appends a stack event. |
| Mojo.Writer.PutFrame | src/mojo.h:128-136 | Appends a frame event with shortened references. |
| Mojo.Writer.PutFrameInvalid | src/events.h:60-67 | Appends an invalid-frame event. |
| Mojo.Writer.PutFrameRef | src/mojo.h:138-140 | Appends a frame reference. |
| Mojo.Writer.PutFrameKernel | src/mojo.h:142-144 | Appends a kernel frame. |
| Mojo.Writer.PutGc | src/events.h:69-76 | Appends a collection event. |
| Mojo.Writer.PutIdle | src/events.h:120-122 | Appends an idle event. |
| Mojo.Writer.PutMetricTime | src/mojo.h:146-148 | Appends a time metric. |
| Mojo.Writer.PutMetricMemory | src/mojo.h:150-152 | Appends a memory metric with its sign. |
| Mojo.Writer.PutStringDef | src/mojo.h:154-157 | Appends a string definition under its shortened key. |
| Mojo.Writer.PutStringRef | src/mojo.h:159-161 | Appends a string reference. |
| MojoReader.LatestFrame | src/mojo.h:128-140 | The reader looks a frame up in the latest frame event with its key. |
| MojoReader.LatestString | src/mojo.h:154-157 | And a string in the latest definition of its reference. |
| MojoReader.LineTold | src/mojo.h:128-157 | A reference is told only if its frame was defined before it, and the frame's file and scope before that. |
| MojoReader.GroundedFrame | src/mojo.h:128-157 | A frame event may follow once both its strings are defined. |
| SamplerModel.ResolveIsPass | src/py_thread.c:157-194 | Resolving a stack is a run of hits and stores on the frame cache, one a frame, and the frames are what they return. |
| SamplerModel.MadeOfCode | src/frame.h:264-279 | The fields of a frame: its strings are the code's, its key has 27 bits of the code above 16 of the instruction, doubled on 3.10. |
| SamplerModel.UnwoundIsStack | src/py_thread.c:385-478 | Before 3.11 the stack is the chain from the frame object, from 3.11 on that from where the C frame leads, or nothing: good at NULL, bad if the C frame cannot be read. |
| SamplerModel.StackIsOne | src/py_thread.c:385-478 | There is one such stack. |
| SamplerModel.ResolvedFramesLive | src/py_thread.c:157-194 | In a stack no taller than the cache, every frame resolved is in the cache at the end, under the key it was resolved by. |
| SamplerModel.FreesNoFrameOfStack | src/py_thread.c:157-194 | On the way, what is evicted and deallocated for one frame of the stack was cached under no key of the frames resolved before it. |
| SamplerModel.SecondResolutionIsSilent | src/py_thread.c:445-448 | Resolving what is left again changes no frame, emits nothing and leaves the caches alone, whatever can be read by then. |
| SamplerModel.ResolveStops | src/py_thread.c:176-183 | The stack is cut where a frame cannot be resolved; what comes after does not matter. |
| SamplerModel.CollectOnce | src/py_thread.c:956-974 | From 3.11 on collecting a stack comes to resolving it once. |
| SamplerModel.ExcludeEmptyExcludesAll | src/py_thread.c:903-905 | As the stack is empty between samples, with `excludeEmpty` no run ever emits anything. |
| SamplerModel.SharedKeyHits | src/py_thread.c:171-175 | While the frame of a code is cached, the same instruction of any code with the same reference resolves to it. |
| RunInduction.ResolveKeeps | src/py_thread.c:157-194 | What cache lookups, string definitions and frame definitions keep, resolving a stack keeps. |
| RunInduction.RunKeeps | src/py_thread.c:895-1063 | What these and all other events keep, every run keeps. |
| SamplerRun.ResolveIsSilent | src/py_thread.c:157-194 | Resolving a stack shows a reader nothing. |
| SamplerRun.EmitSeen | src/py_thread.c:895-1063 | A sample adds to what has been read its stack, its faults, its references as they read by then, and its metrics; nothing read before changes. |
| SamplerRun.CollectedLive | src/py_thread.c:956-974 | Every frame about to be emitted is one the cache still holds. |
| SamplerRun.EveryReferenceReads | src/py_thread.c:895-1063 | In the output of any run each frame event follows definitions of both its strings, and each reference can be read in full. |
| SamplerRun.BytesSeen | src/mojo.h:117-161 | Parsing the bytes of any run shows each sample in turn, with the definitions that precede it. |
| SampleBlocks.ReportedExactly | src/py_thread.c:895-915 | A sample is left out exactly if its thread is invalid, empty ones are excluded, nothing was measured, or, not in full mode, memory is asked for and there is none or idle threads are not asked for and it is idle. |
| SampleBlocks.TailCloses | src/py_thread.c:1038-1057 | A sample ends with the collection mark if there is a collection, and then with time, memory, both with the idle mark between them, or neither, as the mode has it. |
| SampleBlocks.EmitBlock | src/py_thread.c:895-1063 | A reported sample adds its identity, definitions and marks for its faults, references, and its metrics; any other adds nothing. |
| SampleBlocks.RunIsBlocks | src/py_thread.c:895-1063 | The output of a run is the blocks of its reported samples, in order. |
| SampleBlocks.BytesAreBlocks | src/mojo.h:117-161 | The same from the bytes. |
| SampleBlocks.BytesAddUp | src/py_thread.c:1044-1057 | The time and memory metrics in the bytes are those of the reported samples, in order, each in the modes that have it. |
| SampleBlocks.KnownBytes | src/py_thread.c:895-1063 | Two samples, byte by byte, in wall-clock and in full mode. |
| SamplerRun.ShortKeysApart | src/frame.h:232-266 | Frames cached under different keys are stored under different keys, on 3.10 if `-2^15 <= lasti < 2^15`. |
| SamplerRun.WithStringTracks | src/frame.h:132-146 | A string that is read and defined keeps the reader's strings equal to the cached ones, and hides no other. |
| SamplerRun.WithFrameTracks | src/py_thread.c:184-188 | A stored frame is defined at once, over no definition of another cached frame. |
| SamplerRun.TrackingKept | src/py_thread.c:157-194 | Every step keeps the reader in step with both caches, while keys and addresses are told apart. |
| SamplerRun.RefsShow | src/py_thread.c:1033-1036 | References to live frames read as those frames, outermost first. |
| SamplerRun.EmitShows | src/py_thread.c:895-1063 | What is read of a sample is then the sample as it was resolved: stack, faults, frames, metrics. |
| SamplerRun.RunShows | src/py_thread.c:895-1063 | So is what is read of a run, whatever the process does in between. |
| SamplerRun.BytesShow | src/mojo.h:117-161 | The same from the bytes. |
| SamplerTruth.LocatesEntry | src/frame.h:175-222 | The location found from 3.11 on, on every well-formed table. |
| SamplerTruth.LocatesUnstarted | src/frame.h:175-222 | For a frame that has not started, the last location of the table. |
| SamplerTruth.LocatesSpan | src/frame.h:224-251 | The line found on 3.10, on every encoding of spans. |
| SamplerTruth.LocatesRow | src/frame.h:224-262 | The line found before 3.10, on every encoding of rows. |
| SamplerTruth.LocatesNothing | src/frame.h:168-229 | No location is found exactly when the table cannot be read, is empty from 3.11 on, or odd before. |
| SamplerTruth.LocatesUnstartedBefore | src/frame.h:224-262 | Before 3.11 a frame that has not started is on the first line, on 3.10 after the first pair. |
| SamplerTruth.ApartAgree | src/frame.h:94 | Frames that share a key tell the same when codes differ in 27 low bits and instructions fit 16. |
| SamplerTruth.AgreeIsEnough | src/frame.h:94 | Of the three conditions the first is the only one where stored keys and string addresses are told apart. |
| SamplerTruth.HonestyKept | src/py_thread.c:157-194 | While code and strings stay, every step keeps what is cached and defined true of some frame or string in use, whatever they share. |
| SamplerTruth.ResolveOneTells | src/py_thread.c:171-190 | Then a frame resolves, from the cache or not, exactly when it can be told. |
| SamplerTruth.ResolveTells | src/py_thread.c:157-194 | So does a whole stack, up to the first frame that cannot be told. |
| SamplerTruth.CachedReads | src/py_thread.c:171-190 | The reference of a frame that is cached for another reads as the other's true file, scope and location, if the three conditions hold. |
| SamplerTruth.EmitTells | src/py_thread.c:895-1063 | What is read of a sample is its true stack up to the first frame that cannot be told, with the marks for a bad unwinding and for the cut. |
| SamplerTruth.BytesTellTheStacks | src/py_thread.c:895-1063 | If frames that share a cache key, frames that share a stored key, and strings that share a reference tell the same, the bytes of any run parse back to the true stacks of its samples. |
| SamplerLimits.LastTold | src/py_thread.c:895-1063 | If two runs of one-frame samples are told as they were, the one sample that one has beyond the other resolves exactly if it can be told, and reads as it was. |
| SamplerLimits.DisagreementShows | src/py_thread.c:171-190 | If two frames that share a cache key differ, the bytes of two samples, one of each, or of the first alone, are wrong. |
| SamplerLimits.StoredDisagreementShows | src/frame.h:232-266 | If two frames that share only a stored key differ, the bytes of three samples are wrong: the first, the second, the first again; or those of fewer. |
| SamplerLimits.OwnClashShows | src/mojo.h:106 | A frame whose file and scope share a reference and differ is not told. |
| SamplerLimits.ClashShows | src/mojo.h:106 | If strings of two frames share a reference and differ, the bytes of three samples are wrong. |
| SamplerLimits.ClashWithUntoldShows | src/frame.h:132-146 | The same if the second frame cannot be told: its strings are defined all the same. |
| SamplerLimits.TellsExactly | src/py_thread.c:895-1063 | All runs over the given frames are told as they were if and only if frames that share a cache key tell the same, frames that share a stored key do, and strings that share a reference are equal. |
| SamplerLimits.TellsExactlyApart | src/py_thread.c:895-1063 | Where stored keys and string addresses are told apart: if and only if frames that share a cache key tell the same. |
| SamplerLimits.DistantCodesMistold | src/frame.h:94 | Two code objects 2^27 apart, of which one is told as the other. |
| SamplerLimits.DoubledMistold | src/frame.h:232-266 | On 3.10, two frames with different cache keys, of which one is told as the other. |
| SamplerLimits.ShowsExactly | src/py_thread.c:895-1063 | Over frames and string addresses in use, and any changes of the process, all runs are shown as they were resolved if and only if frames cached apart are stored apart and addresses differ in 27 low bits. |
| Samplers.ReadTable | src/frame.h:168-262 | The three decoders compute the location for their version, or fail on an unreadable, empty or odd table as the source does. |
| Samplers.Sampler.Intern | src/frame.h:132-143 | Hits the string cache, or reads, stores and defines the string. |
| Samplers.Sampler.FrameFromCode | src/frame.h:119-279 | Makes the frame of a code object and an instruction with its strings interned, or fails where the source fails. |
| Samplers.Sampler.ResolveFrame | src/py_thread.c:171-190 | One turn of the resolution loop: hit, or make, store and define. |
| Samplers.Sampler.ResolvePyStack | src/py_thread.c:157-194 | The loop leaves the resolved frames on the stack, cut at the first failure, and both caches and the output as specified. |
| Samplers.Sampler.Unwind | src/py_thread.c:385-478 | Leaves the one stack there is for the version of the process, frame by frame, and says whether it is bad. |
| Samplers.Sampler.UnwindCframeStack | src/py_thread.c:456-478 | From 3.11 on unwinds and resolves, and reports either failure. |
| Samplers.Sampler.CollectStack | src/py_thread.c:954-974 | Unwinds, resolves and marks the faults. |
| Samplers.Sampler.EmitStack | src/py_thread.c:1033-1036 | Pops and emits the whole stack; every frame read is live. |
| Samplers.Sampler.EmitTail | src/py_thread.c:1038-1057 | Emits the collection mark and then the metrics of the mode, by the fields of the sample. |
| Samplers.Sampler.EmitCollapsedStack | src/py_thread.c:895-1063 | One sample updates caches, output and stack as the specification of a run says, adds its block if it is reported and changes nothing if not, and leaves the stack empty. |
| Samplers.Record | src/py_thread.c:895-1063 | The bytes of a whole run are the blocks of its reported samples; read back, they show every sample with all its references read, and as it was resolved where keys and addresses are told apart; with `excludeEmpty` there are none. |
| Interleaving.MixedStack.EmitStretch | src/py_thread.c:1000-1010 | Pops and emits down to the next marker, or to the bottom. |
| Interleaving.Contains | src/py_thread.c:997 | `strstr`: true exactly when the part occurs somewhere. |
| Interleaving.EvalIsNamed | src/py_thread.c:992-997 | The test of the loop: the scope is cached, and has the 23 bytes of `PyEval_EvalFrameDefault` in it somewhere. |
| Interleaving.MixedStack.EmitInterleaved | src/py_thread.c:978-1018 | The loop emits the merge of the two stacks, the evaluation frames being those whose cached scope has the bytes of `PyEval_EvalFrameDefault` in it, leaves what the merge leaves, and refreshes the scopes it looks up in the string cache. |
| Interleaving.MixedStack.PushStretches | src/py_thread.c:325-339 | Unwinding pushes the innermost stretch first and a marker on top of each. |
| Interleaving.EmitMixed | src/py_thread.c:978-1018 | The loop on the stacks so filled emits the native frames with the i-th of those evaluation frames replaced by the i-th stretch that can be seen. |
| Interleaving.MergeSplices | src/py_thread.c:978-1018 | From 3.11 on: the native stack with its i-th evaluation frame replaced by the i-th stretch, for any numbers of both; an innermost stretch that is empty counts as absent. |
| Interleaving.EveryStretchIsSpliced | src/py_thread.c:998-1009 | So every evaluation frame gets its stretch exactly when the innermost one is not empty or is not asked for. |
| Interleaving.MergeSplicesOld | src/py_thread.c:984-1018 | Before 3.11: the same with one Python frame for each evaluation frame. |
| Interleaving.SplicedIsLossless | src/py_thread.c:978-1018 | With enough stretches every Python frame and every other native frame is emitted once, in order. |
| Interleaving.NothingLeftOver | src/py_thread.c:1019-1025 | Python frames are left over exactly when there are fewer evaluation frames than stretches, an empty innermost one aside. |
| RangeModel.InsertKeepsShape | src/linux/vm-range-tree.h:129-165 | Inserting a new lower bound keeps heights exact and the tree balanced, in all four cases. |
| RangeModel.InsertKeepsOrder | src/linux/vm-range-tree.h:129-165 | And inserts into the sorted list of its ranges. |
| RangeModel.RotationsKeepOrder | src/linux/vm-range-tree.h:92-119 | Rotations keep the order of the ranges. |
| RangeModel.LeftLeft | src/linux/vm-range-tree.h:143-146 | A right rotation restores the balance. |
| RangeModel.LeftRight | src/linux/vm-range-tree.h:147-151 | A left and a right rotation restore the balance. |
| RangeModel.RightRight | src/linux/vm-range-tree.h:153-156 | A left rotation restores the balance. |
| RangeModel.RightLeft | src/linux/vm-range-tree.h:157-161 | A right and a left rotation restore the balance. |
| RangeModel.RunIsAvl | src/linux/vm-range-tree.h:129-190 | After any insertions of disjoint non-empty ranges: balanced, ordered, exact heights, and exactly those ranges. |
| RangeModel.CrashesExactly | src/linux/vm-range-tree.h:129-165 | An insertion into a balanced tree of distinct bounds dereferences NULL if and only if its bound is that of a leaf that is the right child of a node without a left one. |
| RangeModel.EqualLowerBoundsCrash | src/linux/vm-range-tree.h:153-161 | Three insertions that do. |
| RangeModel.FindIsExact | src/linux/vm-range-tree.h:207-216 | The search returns the one range around the address, or none exactly when there is none. |
| RangeModel.VisitsAtMostHeight | src/linux/vm-range-tree.h:207-216 | It visits at most `height` nodes. |
| RangeModel.FibonacciBound | src/linux/vm-range-tree.h:129-165 | A tree of height h holds at least Fib(h + 2) - 1 ranges. |
| RangeModel.SearchAfterRun | src/linux/vm-range-tree.h:129-216 | The three together, after any run. |
| RangeTrees.VmRange.RotateRight | src/linux/vm-range-tree.h:92-104 | Relinking the nodes does the rotation. |
| RangeTrees.VmRange.RotateLeft | src/linux/vm-range-tree.h:107-119 | Relinking the nodes does the rotation. |
| RangeTrees.Rebalance | src/linux/vm-range-tree.h:141-164 | Relinks as the balance and the new bound require. |
| RangeTrees.AddBelow | src/linux/vm-range-tree.h:129-165 | The linked tree after an insertion is the pure one. |
| RangeTrees.FindNode | src/linux/vm-range-tree.h:207-216 | Returns the node the pure search finds. |
| RangeTrees.VmRangeTree.Add | src/linux/vm-range-tree.h:187-190 | A disjoint range can always be added. |
| RangeTrees.VmRangeTree.Find | src/linux/vm-range-tree.h:207-216 | Finds a range around the address if and only if one was added. |
| VmMaps.MergeLines | src/linux/py_proc.h:642-665 | Safe if and only if the first line with a path does not repeat the path left over; then runs of equal paths become disjoint non-empty ranges, each from one line of its path to another, and the base table holds the bound of the first range with each path hash. |
| VmMaps.GetVmMaps | src/linux/py_proc.h:624-668 | Every address of a consumed line with a path is found under that path, the tree's precondition holds, and the base table is that of the ranges. |
| VmMaps.AddBase | src/linux/py_proc.h:653-655 | A base is set unless the hash has one; address 0 is none. |
| VmMaps.BaseIsLowest | src/linux/py_proc.h:653-655 | A hash has a base exactly when some range has it, and it is the lowest of their bounds. |
| VmMaps.MergedDisjoint | src/linux/py_proc.h:651-658 | The ranges are disjoint and not empty. |
| VmMaps.MergedFound | src/linux/py_proc.h:651-658 | An address of a line is in a range of its path and in no other. |
| ProcLists.ProcList.constructor | src/py_proc_list.c:113-139 | A list with the parent process alone. |
| ProcLists.ProcList.Add | src/py_proc_list.c:52-75 | Puts the process in front; list and index stay in step. |
| ProcLists.ProcList.HasPid | src/py_proc_list.c:79-82 | True exactly for listed pids. |
| ProcLists.ProcList.Remove | src/py_proc_list.c:86-109 | Unlinks and destroys one process; list and index stay in step. |
| ProcLists.ProcList.AddProcChildren | src/py_proc_list.c:143-161 | For any parent table, cyclic or not, terminates and adds exactly the least set closed under attachable unlisted children. |
| ProcLists.ProcList.FillTable | src/py_proc_list.c:206-258 | A pid has a parent in the new table exactly when the last entry for it names that parent, and it is not 0. |
| ProcWorlds.LastEntryCounts | src/py_proc_list.c:206-258 | The same of the table as a map. |
| ProcWorlds.GrownByChild | src/py_proc_list.c:156-158 | Adding a child and then its children stays within the least set. |
| ProcWorlds.GrownIsLeast | src/py_proc_list.c:143-161 | When the scan is over that set has been reached. |
| ProcLists.ProcList.AttachAndPrune | src/py_proc_list.c:308-322 | The pass keeps the running processes in order, destroys the others once, adds nothing but what the running ones lead to, and all of that if and only if no process that is not running is still listed when its parent is asked. |
| ProcLists.ProcList.Update | src/py_proc_list.c:200-325 | The same of a whole update, from the entries of the new table. |
| ProcLists.Watch | src/austin.c:186-190 | Over any number of updates every process that was ever listed is still listed or was destroyed, once. |
| ProcWorlds.PassSetsKeep | src/py_proc_list.c:309-312 | Adding the children of a running process keeps the condition exact: a child missed is never added later, and was still listed. |
| ProcWorlds.PassSetsDrop | src/py_proc_list.c:314-321 | So does removing a process that is not running. |
| ProcWorlds.OrderDecides | src/py_proc_list.c:308-322 | A dead child behind its parent is lost; before it, it is not. |
| ProcLists.LosesChild | src/py_proc_list.c:308-322 | An update that loses a child. |
| ProcLists.GainsChildren | src/py_proc_list.c:308-322 | An update that gains a child if it can be attached to, and a grandchild if both can. |
| Crc.Crc32 | src/linux/futils.h:11-24 | The bit loop computes the checksum of section 8 of RFC 1952. |
| Crc.RegisterIsRfc | src/linux/futils.h:11-24 | The bitwise register is the table-driven one of RFC 1952. |
| Crc.BurstDetected | src/linux/futils.h:11-24 | Different buffers of equal length that differ only within four consecutive bytes have different checksums. |
| Crc.KnownChecksum | src/linux/futils.h:11-24 | The checksum of the letter `a`. |

## Left out

- Remote memory: reads are given as maps of what is readable; memory does not change within a sample.
- Snapshots of the frame heap and of the data stack: off by default; modelled as if off.
- Shim frames of 3.12, which are skipped without a push: no bound on the loop follows from the stack.
- Native and kernel unwinding: `Interleaving` takes both stacks as given. Kernel frames are not emitted.
- Samplers.Sampler.EmitCollapsedStack: binary, non-native, one thread of one process a call; statistics and the header with its metadata are not part of it.
- LineTable.ReadVarint: bits shifted beyond the 32nd are lost, where C leaves the shift undefined.
- LineTable.ReadLocation: a read past the buffer ends it, where the source reads on.
- Samplers.ReadTable: what a malformed 3.11+ table makes the source read past its buffer is a given location.
- SamplerLimits.TellsExactly: runs of at most three one-frame samples show that its conditions are necessary; clashes of strings that need an eviction or a third frame to show (`SamplerLimits.Odd`) are set aside. That the conditions suffice needs no such exception (`SamplerTruth.BytesTellTheStacks`).
- Interleaving.MixedStack.EmitInterleaved: binary mode only, where scopes are looked up in the string cache.
- VmMaps.GetVmMaps: lines are given as parsed, in `where` mode only, and the hash of a path is any function.
- ProcLists.ProcList.AddProcChildren: attaching to a pid succeeds or fails as given, with no other effect.
- ProcLists.ProcList.Update: the interval between updates and the reading of the process table are not modelled.
- Allocation failures, freeing of nodes and tables, and overflow of capacities and counters.
- Stale string and code addresses: a cached string or frame is trusted until evicted, as in the source; `SamplerTruth` states what holds when the process keeps them.
- Text output, statistics, argument parsing, version inference and ELF, Mach-O and PE analysis: plumbing without a crisp specification.
- `fhash`: it restarts the register for each chunk, so it is no digest of a whole file.

# Storage engine core: a verified model

This project models the in-memory core of a LevelDB-style storage engine and proves what its
data structures and encodings promise:

- the **skip list**, twice. `ConcurrentSkipList` is a transition system in which one inserting
  writer and any number of readers take single loads and stores of shared memory, interleaved
  freely, with relaxed loads of the list height. `SkipLists` and `SkipListIterators` are the
  same list as linked objects changed in place by loops; the class keeps the shared memory of
  the transition system as ghost state, and `Insert` performs the writer's steps on the
  objects: the memory it leaves is that of a legal run of the system. `ConcurrentReads` states
  what readers may rely on over whole runs of one operation, `ConcurrentScans` over scans of many,
  and `ConcurrentProgress` that operations get somewhere. `SkipListHeights` tells the heights;
- **internal keys** (`DbFormat`), their order, the shortening of keys (`Comparators`), lookup
  keys, and **snapshot reads** (`Snapshot`), where list, order and lookup key meet, both for a
  list at rest and for a list that is being inserted into;
- the **arena** allocator (`Arenas`): a class proved equal to a step function, and safety and
  space bounds over all runs of that function;
- **binary coding** (`Coding`): LEB128 varints (section 7.6 of DWARF Version 5) and fixed-width
  words, encoders against an independent byte-level definition, decoders on arbitrary bytes,
  and round trips of mixed streams;
- two **arithmetic cores**: the generator that draws node heights (`Random`), with its full period
  (`RandomPeriod`), and the overflow-checked decimal parser (`Logging`).

`Bits` defines `|`, `&`, `<<` and `>>` bit by bit on natural numbers, so the shift-and-mask code
is modelled as written. `Order`, `Slices`, `SortedKeys` and `Wrappers` hold shared definitions.

## How the model is built

- Memory is interleaved at single atomic loads and stores. A slot of a node's pointer table is
  a key of a map once it has been stored; loading it earlier, or at a level the node does not
  have, is a fault state, and the invariant excludes fault states. A load of the list height may
  return any value stored so far. The code's assertions are fault states too.
- Present nodes are those the bottom pointers reach from the head as they stand in memory; the
  invariant's chains are not part of that definition.
- `findGreaterOrEqual`, called at `src/database/skiplist.h:128` and `:265`, is the function
  declared and defined as `findGreateOrEqual`; they are taken as one function.
- The comparison function of the skip list is any total preorder; the head has no key.
- The addresses `new char[n]` returns, the values `randomHeight` draws in the transition
  system, and the interleaving are inputs.
- Narrowing conversions are written out (`Low`). Two of them matter: the 64-bit length passed
  as a 32-bit varint in `PutLengthPrefixedSlice` and in the `LookupKey` constructor.

## Where a promise of the source fails, and where a caller may be surprised

- `src/include/comparator.h:21` promises the shortest key between start and limit.
  `findShortestSeparator` does not always find it: with start `1x` and limit `29` it returns
  `1x` although `2` lies between. `SeparatorIsShortest` gives the exact condition.
- `src/util/coding.h:8-9` promises that `Get` decodes what `Put` encoded. A slice whose length
  does not fit 32 bits is written with a truncated length prefix, and the round trip holds
  exactly below that length (`SliceRoundTrip`, `MemtableKeyReads`).
- The varint readers leave their input untouched when they fail; `GetLengthPrefixedSlice` does so
  only when the length itself cannot be read (`FailedSliceReadLeaves`). On a one-byte length with
  nothing behind it, it fails with the input consumed (`FailedSliceReadConsumes`). No comment says
  which a caller may expect.
- `src/util/random.h:24` calls the multiplier a prime; it is 7^5. What the period needs is that it
  is a primitive root, and that it is (`FullPeriod`).

## Model

| member | source | states |
|---|---|---|
| ConcurrentReads.EveryStateIsSound | src/database/skiplist.h:110-123 | in every interleaving from an empty list no load hits an uninitialised slot or a level the node lacks, no assertion fails, every level is a strictly ascending chain from head to null within the levels below, and every node is on all the levels of its height save those the writer is still linking |
| ConcurrentReads.SeekMissesNothing | test/skiplist_test.cc:124-131 | a seek followed by `next` calls while insertions go on stands on strictly ascending keys at or above the target, all in the list, and every node present when the seek began and at or above the target was stood on or is ahead; at the end none is ahead |
| ConcurrentReads.FullScanMissesNothing | src/database/skiplist.h:268-271 | a finished forward scan has stood on every node present when it began, and on nothing outside the list |
| ConcurrentReads.PrevMissesNothing | src/database/skiplist.h:254-261 | `prev` under insertions stands below the key it left with no node present at its start strictly between, and ends only if none was below |
| ConcurrentReads.LastMissesNothing | src/database/skiplist.h:273-279 | `seekToLast` under insertions stands on a node with no node present at its start above it, and on none only if none was present |
| ConcurrentScans.MixedScanMissesNothing | test/skiplist_test.cc:222-277 | the whole reader of the concurrent test, seeks and `next` calls in any order while insertions go on: the nodes stood on ascend, and every node present when the reader began and not below its first target was stood on, was jumped over by a seek from below it to above it, or is still ahead; at the end none is ahead |
| ConcurrentScans.BackwardScanMissesNothing | src/database/skiplist.h:254-279 | a backward scan, `seekToLast` and then `prev` calls while insertions go on: the nodes stood on descend, and every node present when the scan began was stood on or lies below; at the end none lies below |
| ConcurrentScans.SeeksMissNothing | src/database/skiplist.h:248-266 | the same for further seeks from any state that satisfies the invariant, against any set of nodes present in it |
| ConcurrentScans.PrevsMissNothing | src/database/skiplist.h:254-261 | the same for any series of `prev` calls from any state that satisfies the invariant |
| ConcurrentProgress.NextMoves | src/database/skiplist.h:248-252 | in every reachable state a reader on a node may call `next`: it moves to the present node that follows with none in between, or to the end if none is above, and the node becomes the last it has stood on |
| ConcurrentProgress.OperationEnds | src/database/skiplist.h:169-228 | in every reachable state, in the middle of an insertion too, a seek, `seekToFirst`, `seekToLast` or `prev` that runs on alone ends, whichever stored height it reads, at exactly the node it should find, or at none if there is none, and changes nothing else |
| ConcurrentProgress.SearchesStartAlike | src/database/skiplist.h:171-176 | a reader that reads the current height starts its search where the writer starts to search |
| ConcurrentProgress.SearchesAgree | src/database/skiplist.h:169-209 | level by level and node by node, a seek and a search for the last smaller key walk as the writer's search does |
| ConcurrentProgress.HeightMayBeStale | src/database/skiplist.h:136-137 | a relaxed load of the height may give any height the list has ever had |
| ConcurrentProgress.ReaderFaults | src/database/skiplist.h:177-188 | a reader's step is a fault exactly when the pointer it loads is not initialised or the assertion of `findLessThan` fails, so that the absence of faults says what it should |
| ConcurrentProgress.WriterFaults | src/database/skiplist.h:104-123 | the same for the writer, and for the assertion that the key is not in the list |
| ConcurrentReads.ContainsIsSound | src/database/skiplist.h:126-134 | a key present when `contains` began is found; a key found is in the list |
| ConcurrentReads.InsertIsAtomic | src/database/skiplist.h:103-124 | during an insertion readers see the old set of nodes or that set plus one node with the key, and when the writer is done they see the latter |
| ConcurrentReads.StepPresent | src/database/skiplist.h:120-123 | the only step that changes the set of present nodes is the bottom-level publishing store, and it adds exactly the new node |
| ConcurrentReads.PresentGrows | src/database/skiplist.h:120-123 | the set of present nodes never loses a node, so a guarantee for one seek covers every earlier snapshot |
| ConcurrentReads.KeysRun | src/database/skiplist.h:140-144 | the list only ever holds keys given to `insert` |
| ConcurrentReads.SnapshotStays | src/database/skiplist.h:248-252 | the history a reader's guarantee speaks of is fixed between positioning operations |
| ConcurrentSkipList.StepKeepsInv | src/database/skiplist.h:103-124 | every single load or store of any thread keeps the chains, the writer's predecessor table and every reader's coverage |
| ConcurrentSkipList.RunKeepsInv | src/database/skiplist.h:103-124 | the same over every finite run |
| ConcurrentSkipList.InitInv | src/database/skiplist.h:94-100 | the constructor's memory satisfies the invariant, with empty levels |
| ConcurrentSkipList.ReadHeightInv | src/database/skiplist.h:136-137 | a descent may start from any height value ever stored, new or stale |
| ConcurrentSkipList.DescendKeepsInv | src/database/skiplist.h:169-228 | one load of any of the three descents is safe and keeps what the descent relies on |
| ConcurrentSkipList.BottomKeepsInv | src/database/skiplist.h:177-188 | where a descent stops nothing present at its start is left behind |
| ConcurrentSkipList.NextKeepsInv | src/database/skiplist.h:248-252 | `next` keeps what a reader relies on: it never goes back and passes over no node present at the start; that it moves is `NextMoves` |
| ConcurrentSkipList.WriterKeepsInv | src/database/skiplist.h:103-124 | every step of an insertion keeps the chains and the writer's own invariant, and memory and levels only gain |
| ConcurrentSkipList.ReaderInvGrows | src/database/skiplist.h:136-188 | what a reader relies on survives every change that only adds nodes and level entries |
| ConcurrentSkipList.SearchKeepsInv | src/database/skiplist.h:171-188 | the writer's own search records the last node before the key at every level, and the assertion at line 108 holds |
| ConcurrentSkipList.ChooseKeepsInv | src/database/skiplist.h:110-116 | raising the height with the head as predecessor keeps the invariant |
| ConcurrentSkipList.AllocateKeepsInv | src/database/skiplist.h:140-144 | a new node with unwritten pointers disturbs no level |
| ConcurrentSkipList.InitKeepsInv | src/database/skiplist.h:121-121 | the store to the new node's own pointer is invisible to every level |
| ConcurrentSkipList.PublishKeepsInv | src/database/skiplist.h:122-122 | the publishing store adds exactly the new node to one level, in key order, right behind its predecessor |
| ConcurrentSkipList.CompleteKept | src/database/skiplist.h:120-123 | after every writer step each node is still on all the levels of its height save those being linked |
| ConcurrentSkipList.PresentIsBottom | src/database/skiplist.h:248-252 | following bottom pointers from the head reaches exactly the bottom chain |
| SkipLists.Node.constructor | src/database/skiplist.h:140-144 | a node has its key and as many pointers as its height, with no promised values |
| SkipLists.SkipList.constructor | src/database/skiplist.h:94-100 | a new list is valid and empty, and its generator starts at 0xdeadbeef without the top bit |
| SkipLists.SkipList.RandomHeight | src/database/skiplist.h:146-157 | a height from 1 to 12: one more level for every draw divisible by four until one is not, but at most eleven draws, and the generator has advanced by exactly the draws made |
| SkipListHeights.DrawsOnce | src/database/skiplist.h:146-157 | a seed determines the height drawn and the seed left behind |
| SkipListHeights.FirstHeight | src/database/skiplist.h:96-96 | the first node of a new list has two levels |
| SkipListHeights.ThreeLevels | src/database/skiplist.h:146-157 | a seed whose first two draws are divisible by four and whose third is not gives three levels and is left after three draws |
| SkipListHeights.EveryHeightComes | src/database/skiplist.h:54-54 | whatever the generator has drawn, every height from 1 to 12 is drawn again |
| SkipLists.SkipList.FindGreaterOrEqual | src/database/skiplist.h:169-188 | the descent ends on the first key not below the target or null, and the array, when one is given, holds the last node before it at every level in use |
| SkipLists.SkipList.FindLessThan | src/database/skiplist.h:190-209 | the last node below the target, or the head; the loop's assertion holds |
| SkipLists.SkipList.FindLast | src/database/skiplist.h:211-228 | the last node, or the head |
| SkipLists.SkipList.Insert | src/database/skiplist.h:103-124 | the keys become the old keys with the new one in its place; the height is the one the generator draws, exactly that many levels from the bottom gain the new node, each just that node, and the maximum height rises to it if it was lower; and the memory after the call is that of a legal run of the transition system, one `BeginInsert` followed by writer steps until the writer is idle |
| SkipLists.SkipList.Raise | src/database/skiplist.h:110-116 | the levels the new node adds get the head as predecessor, the array keeps all other entries, memory is that after the writer's step, and the maximum height becomes the larger of the two |
| SkipLists.SkipList.Link | src/database/skiplist.h:120-123 | linking bottom up adds the new node to exactly the levels below its height and its key to the sorted sequence, and leaves the memory the writer's steps lead to |
| SkipLists.SkipList.LinkLevel | src/database/skiplist.h:120-123 | the two stores of one level, performed on the objects, leave the memory that the writer's two steps leave |
| SkipLists.SkipList.Contains | src/database/skiplist.h:126-134 | true exactly when some key in the list compares equal |
| SkipLists.SearchReaches | src/database/skiplist.h:169-188 | the writer's search, step by step, comes to an end without a fault and fills its table on every level from where it stands down |
| SkipLists.WholeRun | src/database/skiplist.h:103-124 | search, choice of height, allocation and linking make up one legal run of an insertion |
| SkipLists.StopIsLowerBound | src/database/skiplist.h:171-188 | where a search stops on a level is the number of keys below the target |
| SkipLists.StopIsPrev | src/database/skiplist.h:105-108 | for an absent key, where the search stops is the predecessor to link behind |
| SkipLists.BottomGains | src/database/skiplist.h:120-123 | linking at level 0 inserts the key into the ascending sequence; linking above changes no key |
| SortedKeys.InsertSortedAdds | src/database/skiplist.h:103-124 | inserting an absent key keeps the keys ascending and adds exactly that key |
| SortedKeys.InsertAllSorts | src/database/skiplist.h:103-124 | any sequence of distinct insertions yields the inserted keys, ascending |
| SortedKeys.AscendingUnique | src/database/skiplist.h:103-124 | ascending sequences of the same keys are equal: the order of insertion leaves no trace |
| SortedKeys.LowerBoundFinds | src/database/skiplist.h:126-134 | the key at the lower bound is equal to the target exactly when some key is |
| SkipListIterators.InsertEach | src/database/skiplist.h:103-124 | a list built by any distinct insertions at any heights holds exactly those keys, ascending |
| SkipListIterators.ForwardScan | src/database/skiplist.h:248-271 | a full forward scan yields the keys in order |
| SkipListIterators.BackwardScan | src/database/skiplist.h:254-279 | a full backward scan yields the reverse of the forward scan |
| SkipListIterators.NextThenPrev | src/database/skiplist.h:248-261 | `prev` after `next` stands on the same node |
| SkipListIterators.Iterator.Next | src/database/skiplist.h:248-252 | one key on, or past the end |
| SkipListIterators.Iterator.Prev | src/database/skiplist.h:254-261 | one key back, invalid before the first |
| SkipListIterators.Iterator.Seek | src/database/skiplist.h:263-266 | the first key not below the target, or invalid |
| SkipListIterators.Iterator.SeekToFirst | src/database/skiplist.h:268-271 | the first key, or invalid in an empty list |
| SkipListIterators.Iterator.SeekToLast | src/database/skiplist.h:273-279 | the last key, or invalid in an empty list |
| SkipListIterators.Iterator.Key | src/database/skiplist.h:242-246 | the key stood on |
| Snapshot.SeekFindsNewest | src/database/db_format.cc:36-51 | a seek for the lookup key stops at the newest version of the user key visible at the snapshot if there is one, otherwise at a larger user key or the end |
| Snapshot.SnapshotSeek | src/database/db_format.h:126-139 | the same as a method on the list: it reports a hit exactly when a visible version exists |
| Snapshot.ConcurrentSnapshotRead | src/database/skiplist.h:169-188 | while entries are being inserted, a snapshot read that ends on a visible version leaves none newer that was present at its start; it ends elsewhere, at a larger user key or at the end of the list, only if none was present |
| Snapshot.NotBeforeSnapshot | src/database/db_format.cc:134-151 | the entries not before a lookup key are exactly the visible versions and the entries of larger user keys |
| DbFormat.PackValue | src/database/db_format.cc:19-23 | the packed word is 256 times the sequence number plus the type and fits 64 bits |
| DbFormat.AppendInternalKey | src/database/db_format.cc:25-28 | appends the encoding |
| DbFormat.ParseInvertsEncode | src/database/db_format.h:115-124 | parsing inverts encoding for every sequence number up to 2^56 - 1 |
| DbFormat.EncodeInvertsParse | src/database/db_format.h:115-124 | only encodings of well-formed keys parse |
| DbFormat.InternalCompareTotalOrder | src/database/db_format.cc:36-51 | the comparator is a total order on encoded keys, zero for identical bytes only |
| DbFormat.CompareOrdersParsed | src/database/db_format.cc:36-51 | on parsed keys it is user key ascending, then sequence descending, then type descending |
| DbFormat.FindShortestInternalSeparator | src/database/db_format.cc:53-69 | both assertions hold for all keys; the result is the specified separator |
| DbFormat.FindShortInternalSuccessor | src/database/db_format.cc:71-82 | the assertion holds for all keys; the result is the specified successor |
| DbFormat.InternalSeparatorIs | src/database/db_format.cc:53-69 | start is replaced exactly when the user key can be shortened at a byte before its last, and then by the shortened user key with the largest sequence number, at or before every entry of that user key |
| DbFormat.InternalSuccessorIs | src/database/db_format.cc:71-82 | a key is replaced exactly when some byte string shorter than its user key is above it, and then by the short successor with the largest sequence number, at or before every entry of that user key |
| DbFormat.ReplacedSeparator | src/database/db_format.cc:60-67 | a replaced separator is strictly between start and limit, and shorter |
| DbFormat.SeparatorSplitsKeys | src/database/db_format.cc:53-69 | every key up to start stays below a replaced separator, every key from limit on above it, and it parses |
| DbFormat.SuccessorIsAbove | src/database/db_format.cc:71-82 | the successor is not below any key up to the given one, and is shorter and above it when replaced |
| DbFormat.LookupKey.constructor | src/database/db_format.cc:134-151 | the buffer is never overrun and holds length prefix, user key and trailer |
| DbFormat.LookupViews | src/database/db_format.h:137-139 | the three views are the prefixed key, the encoded internal key and the user key |
| DbFormat.MemtableKeyReads | src/database/db_format.cc:134-151 | reading the memtable key as a slice gives the internal key exactly when its length fits 32 bits |
| Comparators.FindShortestSeparator | src/util/comparator.cc:26-46 | the in-place code computes the separator, and its assertion holds |
| Comparators.SeparatorIsLeast | src/util/comparator.cc:26-46 | start is changed exactly when a byte fits between the first differing ones, is cut off there, and then is the least string of its length above what it was |
| Comparators.SeparatorBetween | src/util/comparator.cc:38-44 | a changed start lies strictly between start and limit |
| Comparators.ChangedIsShortest | src/util/comparator.cc:25-46 | no string in [start, limit) is shorter than a changed start |
| Comparators.SeparatorIsShortest | src/include/comparator.h:21-22 | the result is in [start, limit) and is the shortest string there exactly when start was changed or already shortest |
| Comparators.SeparatorNotAlwaysShortest | src/util/comparator.cc:34-45 | a start the code leaves alone although a shorter separator exists |
| Comparators.FindShortSuccessor | src/util/comparator.cc:49-60 | the in-place code computes the successor |
| Comparators.SuccessorIsLeast | src/util/comparator.cc:49-60 | a key is changed exactly when it has a byte other than 0xff, and then to the least string of the new length above it |
| Comparators.SuccessorIsShortest | src/util/comparator.cc:48-60 | the successor is not below the key, equals it only for bytes 0xff throughout, and no string not below the key is shorter |
| Slices.CompareIsDictionaryOrder | src/include/slice.h:52-62 | the comparison is dictionary order stated on positions |
| Slices.CompareTotalOrder | src/include/slice.h:52-62 | it is a total order, zero for equal strings only |
| Slices.EqualAndPrefix | src/include/slice.h:31-33 | `startsWith` is the prefix relation and equality is equality of bytes |
| Arenas.Arena.constructor | src/util/arena.cc:7-7 | no window, no blocks, no usage |
| Arenas.Arena.Allocate | src/util/arena.h:40-51 | the call is the step function, result included |
| Arenas.Arena.AllocateAligned | src/util/arena.cc:33-50 | the call is the step function, and the result is a multiple of 8 |
| Arenas.Arena.AllocateFallback | src/util/arena.cc:17-31 | large requests get their own block and leave the window; others start a new window |
| Arenas.Arena.AllocateNewBlock | src/util/arena.cc:52-57 | the block is recorded and the usage grows by its size and one pointer |
| Arenas.StepKeepsInv | src/util/arena.cc:17-57 | every call keeps disjointness, ownership of the window and the accounts |
| Arenas.RunIsSafe | src/util/arena.cc:17-57 | over every run regions are pairwise disjoint, each inside one owned block and apart from the free window, which is the tail of an owned block |
| Arenas.AlignedResult | src/util/arena.cc:33-50 | aligned results are multiples of 8 whatever path is taken |
| Arenas.UsageIsExact | src/util/arena.cc:52-57 | usage is the sum of block sizes and one pointer per block, never below the bytes requested |
| Arenas.UsageGrows | src/util/arena.cc:15-15 | usage never decreases |
| Arenas.NeverStuck | src/util/arena.cc:17-57 | after every run every further request can be served, given a fresh address |
| Arenas.SpaceBound | src/util/arena.cc:17-50 | at most 1030 bytes of a standard block are left behind, which bounds the usage linearly in the bytes requested and the aligned requests |
| Coding.EncodeVarint32 | src/util/coding.cc:9-36 | the unrolled cases write exactly the LEB128 bytes and nothing else |
| Coding.EncodeVarint64 | src/util/coding.cc:38-47 | the loop writes exactly the LEB128 bytes and nothing else |
| Coding.PutVarint32 | src/util/coding.cc:63-67 | appends the bytes through a five-byte buffer that is never overrun |
| Coding.PutVarint64 | src/util/coding.cc:69-73 | the same with ten bytes |
| Coding.VarintBytesBound | src/util/coding.cc:63-73 | n bytes suffice exactly for numbers of 7n bits |
| Coding.VarintLength | src/util/coding.cc:166-173 | the number of bytes the encoders write |
| Coding.GetVarint32PtrFallback | src/util/coding.cc:82-98 | the loop reads the varint at the pointer, modulo 2^32, or fails |
| Coding.GetVarint32Ptr | src/util/coding.cc:137-147 | the fast path in front of it gives the same result on every input |
| Coding.GetVarint64Ptr | src/util/coding.cc:150-164 | the same for ten bytes and 2^64 |
| Coding.GetVarint32 | src/util/coding.cc:100-110 | on success the input advances past the varint, on failure it is untouched |
| Coding.GetVarint64 | src/util/coding.cc:112-122 | the same for 64 bits |
| Coding.ReadVarintOnAnyBytes | src/util/coding.cc:82-98 | on arbitrary bytes reading succeeds exactly when a byte below 128 is among the first 5 or 10, and yields the base-128 number modulo the word |
| Coding.Base128Digit | src/util/coding.cc:84-96 | byte i of a varint contributes exactly bits 7i to 7i + 6 |
| Coding.VarintShape | src/util/coding.cc:38-47 | only the last byte is below 128, it is not a padding zero, and the bytes denote the number |
| Coding.VarintCanonical | src/util/coding.cc:38-47 | the encoding is the only unpadded byte string of its value, and the shortest |
| Coding.VarintRoundTrip | src/util/coding.cc:100-122 | a written number is read back whatever follows, and every strict prefix is rejected |
| Coding.PutLengthPrefixedSlice | src/util/coding.cc:76-79 | appends the length, cut to 32 bits, and the bytes |
| Coding.GetLengthPrefixedSlice | src/util/coding.cc:125-135 | result and remaining input of a slice read, in all three outcomes |
| Coding.ReadSliceOnAnyBytes | src/util/coding.cc:125-135 | on arbitrary bytes the three outcomes of a slice read with what each leaves: nothing taken without a length among the first five bytes, only the length taken when too few bytes follow, the slice read otherwise |
| Coding.FailedSliceReadLeaves | src/util/coding.cc:125-135 | a failed slice read leaves the input exactly when the length itself could not be read |
| Coding.FailedSliceReadConsumes | src/util/coding.cc:125-135 | a one-byte length with nothing behind it is consumed by the read that fails |
| Coding.SliceRoundTrip | src/util/coding.cc:76-79 | a slice is read back exactly when its length fits 32 bits |
| Coding.StreamRoundTrip | src/util/coding.cc:63-135 | any mix of integers and slices written in sequence is read back in order with nothing of what follows consumed |
| Coding.EncodeFixed32 | src/util/coding.h:42-49 | writes the four little-endian bytes and nothing else |
| Coding.EncodeFixed64 | src/util/coding.h:51-62 | writes the eight little-endian bytes and nothing else |
| Coding.PutFixed32 | src/util/coding.cc:50-54 | appends the four bytes |
| Coding.PutFixed64 | src/util/coding.cc:57-61 | appends the eight bytes |
| Coding.DecodeFixed32Value | src/util/coding.h:64-71 | the shifted bytes or-ed together are the little-endian number |
| Coding.DecodeFixed64Value | src/util/coding.h:73-84 | the same for eight bytes |
| Coding.Fixed32RoundTrip | src/util/coding.h:42-71 | decoding inverts encoding and encoding inverts decoding |
| Coding.Fixed64RoundTrip | src/util/coding.h:51-84 | the same for eight bytes |
| Random.Random.constructor | src/util/random.h:16-20 | every argument yields a seed in [1, 2^31 - 2], and one that is in that range is kept |
| Random.InitialSeedIs | src/util/random.h:16-20 | the top bit of the argument is ignored; the seed is the argument if it can be one, and 1 for 0 and the modulus |
| Random.DifferentStayDifferent | src/util/random.h:16-33 | generators constructed with different seeds differ after every number of draws |
| Random.Random.Next | src/util/random.h:22-33 | the shift-and-mask step is multiplication by 16807 modulo 2^31 - 1 and keeps the range |
| Random.Random.OneIn | src/util/random.h:38-38 | true exactly when the new seed is divisible |
| Random.FoldIsMod | src/util/random.h:27-31 | folding the high bits and one subtraction is the remainder |
| Random.SeedsStayInRange | src/util/random.h:16-33 | from every argument, after any number of draws, the seed is neither 0 nor the modulus |
| Random.NextSeedInjective | src/util/random.h:26-31 | the step is injective on seeds |
| Random.InverseStep | src/util/random.h:26-31 | each step can be undone by a fixed multiplier |
| RandomPeriod.FullPeriod | src/util/random.h:23-28 | from every seed the generator is back at that seed after `k` draws exactly when `k` is a multiple of 2^31 - 2: the period the constants are chosen for |
| RandomPeriod.EverySeedFollows | src/util/random.h:23-28 | from every seed every other seed is drawn, within 2^31 - 2 draws: all constructor arguments lead to the same cycle |
| Logging.ConsumeDecimalNumber | src/util/logging.cc:28-51 | succeeds exactly when the longest digit prefix is nonempty and at most 2^64 - 1, with its exact value and remainder; otherwise the input is untouched |
| Logging.Overflows | src/util/logging.cc:40-44 | once a prefix of the digits is too large no continuation fits |
| Logging.ReadDecimalOnAnyBytes | src/util/logging.cc:28-51 | on arbitrary bytes a number and a rest are read exactly when the bytes are zeros, that number below 2^64 as it is written, and that rest, which does not go on with a digit |
| Logging.NoLeadingZero | src/util/logging.cc:16-20 | numbers are written without leading zeros |
| Logging.DecimalRoundTrip | src/util/logging.cc:16-20 | the digits denote the number |
| Logging.ReadsWhatWasWritten | src/util/logging.cc:28-51 | written numbers are read back with the rest untouched exactly when the rest does not begin with a digit |

## Left out

- The weak memory model beyond stale height loads: other loads and stores are interleaved atomically, which is what the acquire and release orders at lines 71 and 77 of the skip list are for.
- Raw pointers and placement new: a node's pointer table is a sequence indexed by level, and nodes are not placed in arena memory.
- User comparators other than the bytewise one: the comparator of `src/database/db_format.cc` calls it through an interface, and it is the only implementation in the repository.
- `skewed` and `uniform` of the generator: one reduction of a draw, and a composition of two.
- Statistical claims: the distribution of heights and the sampled usage ratio at `test/arena_test.cc:44`.
- Termination of a reader that races with insertions: a writer may insert ahead of it for ever. An operation that runs on alone is proved to end.
- `InternalFilterPolicy`, debug strings and escaping, hashing, `Status`, the environment wrappers and the abstract interfaces.
- `std::to_string` is taken as the decimal digits of the number without leading zeros.

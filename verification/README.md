# Dagger and its memcached: verified models

Dafny models of the hard parts of the Dagger RPC stack and of the memcached server that comes with it,
with proofs of what those parts are for. `dafny verify dfyconfig.toml` checks the whole project.

* **CRC-32C** (`crc_*`): the bit-at-a-time CRC, proved to be the remainder over GF(2) of the reflected message
  by the Castagnoli polynomial; the three-lane version with its matrix operators, and the slicing versions for
  both byte orders, proved equal to it.
* **External store** (`ext_*`): writers, io threads and the maintenance thread as a step system, one step for
  each section under a mutex and one for each byte that reaches or leaves the disk, with an invariant that
  every step keeps. Over every run a read misses or returns what was committed. For a record of no bytes this
  is false; the exact condition is proved, and with any configuration a run that shows it. Over every run, too,
  a page's object count is what was written less what was deleted, and the page evicted is the oldest. The
  engine is also a class that keeps pages, buffers and ios on stacks by `next` links: each method makes its
  step on the lists those links form, its assertions following from the invariants, which it keeps.
* **Hash table** (`assoc*`): chains of links in an old and a new table, workers and the migration of a bucket
  item by item, against a plain map; why one lock stripe is enough, for every single write of the migration
  and of other workers; the table as a class.
* **LRU lists, items and crawler** (`lru`, `lru_crawl`, `items*`, `crawler`): the pointer changes of the
  doubly linked lists; a crawl under interference; flag, table, lists, counters and references of items over
  every run, crawlers included; pulling from a tail, which items it looks at and what its results mean; and
  the whole item layer as classes.
* **Bip buffer and bumps** (`bip`, `bump*`): the buffer as a byte queue, the references that pass through it
  while its lock is dropped, and the items those references are to, in every interleaving.
* **RPC rings** (`ring`, `rpc_queues`): a ring whose reader knows new packets by their tags only, exactly when
  it then sees them all, and the two kinds of tags.
* **Jenkins hash** (`jenkins*`): three ways of reading a key, one function made of bijections.
* **Integer printing** (`itoa`).

Each class or method works on the state the source works on (lists by their links, buffers as arrays) and is
proved against a function on values; the theorems are about those functions. Items are numbered instead of
being addressed, so a pointer is an optional number and a link field is a map from numbers. Where a crawler is
an item, it has the number of its list.

What is taken as given:

* The `crc32b` and `crc32q` instructions are one and eight byte steps. The tables that `pthread_once` builds
  once are built by each call of the model. A 64-bit register is two words.
* In the external store `pwrite` and `pread` finish in full, one byte at a time and in any order; each bucket
  has one writer; fewer than 2^32 pages are allocated in a run; page 0 is on no list, as the loop at
  `extstore.c:313` stops at 1. Runs are those of a valid configuration; `ExtstoreConfig.Configure` states
  exactly which of the accepted ones are.
* `hash`, the size of an item, the clock, what has expired and what has been flushed are parameters. The item
  lock is a stripe of the low bits of the hash value, fewer than the bits of the first table. `hv & mask` is
  written as a remainder, and an or of disjoint bits as a sum.
* An LRU list is numbered by its class, below 64, plus 64 times its segment. Tail repair is off.
* Memory that holds a key at a multiple of four ends at one too, so that a masked word can be read.
* The writer of a ring does not lap its reader: a slot is written only after it was copied from. Which calls
  of which clients arrive on a receive ring, and with which counts, is a parameter.

Where the code does not do what a reader, or its own comments, would expect, a lemma gives an input and
another one the exact condition:

* The read-back of an empty record can fail an assertion: `ExtstoreEmptyRecord.EmptyRecordBreaks`,
  `ExtstoreRuns.ReadableIsServed`.
* `lru_pull_tail` returns 0 when a crawler blocks it although it has removed items before:
  `ItemPullCases.BlockedCountIsWrong`, `ItemPullCount.CountIsRightUnless`.
* A call on a WARM list rescues active items but can come round to one it has just put back in front, and send
  it to COLD: `ItemPullCases.RescuedGoesCold`, `ItemPullSeen.ActiveEndsIff`.
* Asked to return an item from another list than COLD or with eviction, it keeps one locked and referenced
  without returning it: `ItemPullCases.ItemIsLost`, `ItemPullCases.FlagsDecide`.
* `bipbuf_poll` accepts more bytes than region A holds: `Bip.PollBreaks`, `Bip.PollSoundIff`.
* A receive ring can miss packets when it is deep or gets only some of a client's calls:
  `RpcQueues.TwoFlows`, `RpcQueues.TooDeep`, `RpcQueues.RxDelivers`.
* `extstore_init` accepts pages of size 0 and free lists that do not exist: `ExtstoreConfig.Configure`.

## Model

| member | source | states |
|---|---|---|
| `CrcSpec.BitStepLinear` | sw/apps/memcached/memcached/crc32c.c:290-298 | one bit of the CRC is linear over exclusive or |
| `CrcSpec.ZerosCompose` | sw/apps/memcached/memcached/crc32c.c:85-117 | appending m and then n zero bits is appending m + n |
| `CrcSpec.FeedByteIsZeros` | sw/apps/memcached/memcached/crc32c.c:172-178 | feeding a byte is absorbing it into the register and then eight zero bits |
| `CrcSpec.FeedLinear` | sw/apps/memcached/memcached/crc32c.c:196-197 | the CRC of a message from a register that is a sum is the sum of the message from one part and zeros from the other |
| `CrcSpec.CrcConcat` | sw/apps/memcached/memcached/crc32c.c:312-343 | the returned CRC, passed in again, continues the message |
| `CrcSpec.CrcOfChunks` | sw/apps/memcached/memcached/crc32c.c:312-343 | feeding a buffer in any chunks through the returned CRC is one call on the whole |
| `CrcPoly.CrcIsRemainder` | sw/apps/memcached/memcached/crc32c.c:48-49 | the complement of the CRC is, bit for bit, the remainder over GF(2) of the reflected message, with the complemented start in front and 32 zero bits behind, by the Castagnoli polynomial written by its exponents |
| `CrcPoly.CrcIsDetermined` | sw/apps/memcached/memcached/crc32c.c:312-343 | a word is the CRC of a message if and only if its complement is that remainder |
| `CrcPoly.CheckValue` | sw/apps/memcached/memcached/crc32c.c:48-49 | the CRC of the nine digits 1 to 9 is 0xe3069283 |
| `Gf2.RemainderIsUnique` | sw/apps/memcached/memcached/crc32c.c:48-49 | division over GF(2) has one remainder of lower degree than the divisor |
| `CrcHw.ProductIsZeros` | sw/apps/memcached/memcached/crc32c.c:62-71 | a matrix that stands for "append n zero bits" on unit vectors does so on every vector |
| `CrcHw.MatrixTimes` | sw/apps/memcached/memcached/crc32c.c:62-71 | the loop over the bits of the vector computes the matrix product |
| `CrcHw.MatrixSquare` | sw/apps/memcached/memcached/crc32c.c:75-78 | squaring the operator for n zero bits gives the one for 2n |
| `CrcHw.OneZeroOp` | sw/apps/memcached/memcached/crc32c.c:88-94 | the matrix the operator starts from is the one for a single zero bit |
| `CrcHw.ZeroBytesOfPow2` | sw/apps/memcached/memcached/crc32c.c:85-117 | for a power of two the operator built is the one for exactly that many zero bytes |
| `CrcHw.ZerosOp` | sw/apps/memcached/memcached/crc32c.c:85-117 | repeated squaring gives the operator for the number of zero bits that the loop over the length reaches |
| `CrcHw.ZerosTables` | sw/apps/memcached/memcached/crc32c.c:121-131 | the four tables together apply the operator to any register |
| `CrcHw.Shift` | sw/apps/memcached/memcached/crc32c.c:134-137 | four lookups append the zero bytes |
| `CrcHw.JoinLanes` | sw/apps/memcached/memcached/crc32c.c:196-197 | the CRC of two adjoining pieces from the CRCs of each, the second from zero |
| `CrcHw.RunLanes` | sw/apps/memcached/memcached/crc32c.c:185-195 | three interleaved lanes are the CRCs of three separate stretches |
| `CrcHw.ThreeLanes` | sw/apps/memcached/memcached/crc32c.c:184-200 | one round of three lanes stitched together is the CRC over all three stretches |
| `CrcHw.ByteSteps` | sw/apps/memcached/memcached/crc32c.c:172-178 | the byte loops before and after feed exactly the bytes they step over |
| `CrcHw.LaneRounds` | sw/apps/memcached/memcached/crc32c.c:184-220 | rounds of one lane length continue the CRC as far as whole rounds go |
| `CrcHw.WordSteps` | sw/apps/memcached/memcached/crc32c.c:224-233 | eight bytes at a time continue the CRC |
| `CrcHw.Crc32cHw` | sw/apps/memcached/memcached/crc32c.c:161-246 | for every starting CRC, buffer and alignment the three-lane version is the bit-at-a-time CRC-32C, which `CrcPoly.CrcIsDetermined` pins down |
| `CrcSw.ZerosByTable` | sw/apps/memcached/memcached/crc32c.c:288-308 | eight zero bits by one table lookup and a shift |
| `CrcSw.ByteByTable` | sw/apps/memcached/memcached/crc32c.c:317-320 | one byte by one table lookup |
| `CrcSw.FeedEight` | sw/apps/memcached/memcached/crc32c.c:324-332 | eight bytes at once are the sum of eight table entries, one per byte |
| `CrcSw.LittleBytes` | sw/apps/memcached/memcached/crc32c.c:324-332 | the bytes of the little-endian register are the message bytes with the CRC absorbed |
| `CrcSw.BigBytes` | sw/apps/memcached/memcached/crc32c.c:396-406 | the same for the byte-swapped register of the big-endian version, in the opposite order |
| `CrcSw.ByteEntry` | sw/apps/memcached/memcached/crc32c.c:290-298 | the bit loop computes the first table entry of a byte |
| `CrcSw.InitLittle` | sw/apps/memcached/memcached/crc32c.c:288-308 | the eight tables hold the CRCs of a byte followed by 0 to 7 zero bytes |
| `CrcSw.InitBig` | sw/apps/memcached/memcached/crc32c.c:361-382 | the big-endian tables hold the same entries with their bytes swapped |
| `CrcSw.SlicesLittle` | sw/apps/memcached/memcached/crc32c.c:325-332 | eight lookups give the sum of the eight slices |
| `CrcSw.SlicesBig` | sw/apps/memcached/memcached/crc32c.c:399-406 | the same in swapped order |
| `CrcSw.Crc32cSwLittle` | sw/apps/memcached/memcached/crc32c.c:312-343 | for every input and alignment the slicing version is that same CRC |
| `CrcSw.Crc32cSwBig` | sw/apps/memcached/memcached/crc32c.c:386-417 | for every input and alignment the byte-swapped version is that same CRC |
| `ExtstoreConfig.NextFile` | sw/apps/memcached/memcached/extstore.c:288-299 | the first file with pages left, going round from the last one used |
| `ExtstoreConfig.PlacePages` | sw/apps/memcached/memcached/extstore.c:284-307 | each file gets its number of pages, and pages of one file never overlap |
| `ExtstoreConfig.Configure` | sw/apps/memcached/memcached/extstore.c:226-311 | each error code exactly under its condition, in the order of the checks, with an alignment of 2 MiB and fewer than 65535 pages; what is accepted is a valid configuration exactly if pages have a size and every file with a page other than page 0 names an existing free list, which the code does not check |
| `ExtstoreRuns.InitOk` | sw/apps/memcached/memcached/extstore.c:286-348 | the engine starts in a state that meets all invariants |
| `ExtstoreSafe.InvIsSafe` | sw/apps/memcached/memcached/extstore.c:384-586 | under the invariants no step pops an empty stack, misses a buffer or fails an assertion |
| `ExtstoreWrites.CommitKeeps` | sw/apps/memcached/memcached/extstore.c:568-586 | a write keeps every invariant and its record is stored |
| `ExtstoreWrites.LockKeeps` | sw/apps/memcached/memcached/extstore.c:529-562 | taking a page for a write, with the flush and the new buffer it may need, keeps every invariant |
| `ExtstoreWrites.SubmitWbufKeeps` | sw/apps/memcached/memcached/extstore.c:480-501 | submitting a full buffer keeps every invariant |
| `ExtstoreWrites.AllocateWbufKeeps` | sw/apps/memcached/memcached/extstore.c:421-441 | attaching a buffer to a page keeps every invariant |
| `ExtstorePages.AllocateKeeps` | sw/apps/memcached/memcached/extstore.c:384-418 | giving a bucket a new page keeps every invariant |
| `ExtstorePages.FreeKeeps` | sw/apps/memcached/memcached/extstore.c:827-873 | freeing a page that nobody reads or writes keeps every invariant |
| `ExtstorePages.ScanKeeps` | sw/apps/memcached/memcached/extstore.c:910-939 | a turn of the maintenance loop keeps every invariant; which page it remembers is `ExtstoreOldest.OldestIsRemembered` |
| `ExtstorePages.EvictKeeps` | sw/apps/memcached/memcached/extstore.c:941-958 | an eviction keeps every invariant |
| `ExtstoreReads.PutKeeps` | sw/apps/memcached/memcached/extstore.c:797-802 | a byte reaching the disk damages no record and no other write in flight |
| `ExtstoreReads.BeginKeeps` | sw/apps/memcached/memcached/extstore.c:757-775 | starting a read, from buffer or disk, keeps every invariant |
| `ExtstoreReads.ReleaseKeeps` | sw/apps/memcached/memcached/extstore.c:814-818 | dropping a read reference keeps every invariant |
| `ExtstoreReads.DeleteKeeps` | sw/apps/memcached/memcached/extstore.c:628-661 | deleting objects keeps every invariant; what it leaves of the counts is `ExtstoreAccount.CountsAreTallied` |
| `ExtstoreReads.CloseKeeps` | sw/apps/memcached/memcached/extstore.c:676-686 | closing a page keeps every invariant |
| `ExtstoreFlush.FlushKeeps` | sw/apps/memcached/memcached/extstore.c:449-475 | the callback of a finished flush keeps every invariant: what was in the buffer is on disk |
| `ExtstoreRuns.StepKeeps` | sw/apps/memcached/memcached/extstore.c:384-958 | every step of writers, io threads, readers and maintenance keeps every invariant |
| `ExtstoreRuns.RunKeepsInv` | sw/apps/memcached/memcached/extstore.c:384-958 | every state of every run meets all invariants |
| `ExtstoreRuns.RunsAreSafe` | sw/apps/memcached/memcached/extstore.c:421-586 | in no run is the io stack empty when popped, or the assertion on the page's buffer or written offset violated |
| `ExtstoreRuns.ReadsAreExact` | sw/apps/memcached/memcached/extstore.c:694-818 | over every interleaving a read of a committed record misses or returns exactly the bytes committed, from buffer or disk; only for an empty record may it end in the assertion instead |
| `ExtstoreRuns.ReadableIsServed` | sw/apps/memcached/memcached/extstore.c:694-775 | a read of a readable record never misses, and ends in the buffer assertion exactly for an empty record past what its buffer covers |
| `ExtstoreEmptyRecord.EmptyRecordBreaks` | sw/apps/memcached/memcached/extstore.c:694-711 | with every configuration of two pages or more, a run of eight steps in which reading a committed record of no bytes fails the assertion |
| `ExtstoreRuns.VersionsChangeAtRest` | sw/apps/memcached/memcached/extstore.c:827-873 | a page is freed or changes version only with no reader, no buffer and no write in flight |
| `ExtstoreRuns.BuffersConserved` | sw/apps/memcached/memcached/extstore.c:421-501 | free and attached buffers, and free and submitted ios, each make up the buffer count |
| `ExtstoreRuns.PagesArePartitioned` | sw/apps/memcached/memcached/extstore.c:313-323 | pages 1 and up are on exactly one list once, and the free count is the length of the free lists |
| `ExtstoreRuns.OnlyTopsAreOpen` | sw/apps/memcached/memcached/extstore.c:384-418 | pages below the top of a stack are fully allocated, and live pages differ in version |
| `ExtstoreAccount.CountsAreTallied` | sw/apps/memcached/memcached/extstore.c:628-661 | in every state of every run the object and byte counts of a page are what was written to it since it was opened, lowered by every deletion since and never below zero |
| `ExtstoreAccount.ScanFreesTheDeleted` | sw/apps/memcached/memcached/extstore.c:933-937 | over every run a scan frees a page that is not closed only if at least as many objects were deleted from it as written to it, and else leaves it as it is |
| `ExtstoreOldest.OldestIsRemembered` | sw/apps/memcached/memcached/extstore.c:910-934 | over every run, during a scan: all pages up to the next were looked at in order, the page remembered has the least version of those that were full, open, not empty and of the default list, and there is none exactly if none was |
| `ExtstoreOldest.OldestIsEvicted` | sw/apps/memcached/memcached/extstore.c:941-958 | over every run the page picked for eviction is older than every other page that was fit when the scan came by; the default list was empty when the scan began and the scan freed nothing |
| `ExtstoreOldest.ScanEndsInEviction` | sw/apps/memcached/memcached/extstore.c:902-941 | a scan ends in an eviction exactly if the default list was empty at its start, it freed nothing and came by a page fit for it |
| `ExtstoreEngine.BuildLists` | sw/apps/memcached/memcached/extstore.c:313-323 | the loop from the last page down to 1 links the free lists, every page on one at most |
| `ExtstoreEngine.BuildBuffers` | sw/apps/memcached/memcached/extstore.c:340-348 | the loop links the stacks of buffers and ios |
| `ExtstoreEngine.Engine.UnlinkPage` | sw/apps/memcached/memcached/extstore.c:838-851 | the walk with two pointers takes just that page out of its bucket's chain of links; it is then on no list, and all other lists are as they were |
| `ExtstoreEngine.Engine.constructor` | sw/apps/memcached/memcached/extstore.c:284-348 | a new engine is in the initial state of the step system, its links form the lists and all invariants hold |
| `ExtstoreEngine.Engine.PopPage` | sw/apps/memcached/memcached/extstore.c:387-398 | finds no page exactly if the wanted and the default list are both empty; else the first page of the wanted list or, that being empty, of the default one, which is on no list any more, and the links still form all lists |
| `ExtstoreEngine.Engine.TakePage` | sw/apps/memcached/memcached/extstore.c:384-418 | the assertions hold and all invariants are kept; unless no page is free, a page of the wanted list, or of the default one if that is empty, is on top of the bucket and younger than every other page in use |
| `ExtstoreEngine.Engine.FindPage` | sw/apps/memcached/memcached/extstore.c:520-525 | keeps all invariants; the request goes on with the top of the bucket's stack, and fails here exactly if the bucket has no page and none is free |
| `ExtstoreEngine.Engine.AttachWbuf` | sw/apps/memcached/memcached/extstore.c:421-441 | keeps all invariants; an empty buffer that starts where the written part of the page ends, or nothing exactly if no buffer is free |
| `ExtstoreEngine.Engine.Flush` | sw/apps/memcached/memcached/extstore.c:480-501 | an io is there to pop; the buffer is full and submitted, its rest zeroed, and all invariants hold |
| `ExtstoreEngine.Engine.LockPage` | sw/apps/memcached/memcached/extstore.c:529-562 | keeps all invariants; exactly when a page is used up, when a writer gets room and when it must try again; the bytes handed out lie in the page's open buffer past every live record of the page |
| `ExtstoreEngine.Engine.GetPage` | sw/apps/memcached/memcached/extstore.c:533-540 | the assertion that the old page is used up holds; unless no page is free, the bucket's top is then a free page, the youngest |
| `ExtstoreEngine.Engine.Write` | sw/apps/memcached/memcached/extstore.c:568-586 | the record handed out is committed, live, and stored where a reader will look for it; all invariants are kept |
| `ExtstoreEngine.Engine.FlushCallback` | sw/apps/memcached/memcached/extstore.c:449-475 | both assertions hold; the written part of the page has grown by the buffer and all of those bytes are on disk; buffer and io are back on their stacks |
| `ExtstoreEngine.Engine.BeginRead` | sw/apps/memcached/memcached/extstore.c:757-775 | a miss exactly if the page is no longer readable under that version; otherwise the committed bytes or a disk read, except for an empty record past its buffer, which breaks |
| `ExtstoreEngine.Engine.DeleteObjects` | sw/apps/memcached/memcached/extstore.c:628-661 | 0 exactly for an open page of that version, else -1 and nothing changes; that page's counts are lowered by what is deleted, to no less than 0; no record becomes unreadable by it |
| `ExtstoreEngine.Engine.ClosePage` | sw/apps/memcached/memcached/extstore.c:676-686 | just the records of that version of the page can no longer be read |
| `ExtstoreEngine.Engine.ReturnPage` | sw/apps/memcached/memcached/extstore.c:827-873 | the page goes from its bucket's chain of links to its free list, reset, and the links still form all lists |
| `ExtstoreEngine.Engine.StartScan` | sw/apps/memcached/memcached/extstore.c:901-907 | a scan may end in an eviction exactly if the default free list is empty when it starts |
| `ExtstoreEngine.Engine.ScanPage` | sw/apps/memcached/memcached/extstore.c:910-939 | keeps all invariants; just the page looked at is freed, exactly if it is written in full, has no reader, and is empty or closed, and then nothing will be evicted; the page remembered is the older of the one before and this one, if this one is fit |
| `ExtstoreEngine.Engine.EvictPage` | sw/apps/memcached/memcached/extstore.c:941-958 | keeps all invariants; just the page picked is freed if it was open and nobody reads it, and is closed otherwise |
| `Assoc.SeekIsLookup` | sw/apps/memcached/memcached/assoc.c:73-97 | the walk of one bucket, old or new, finds what the whole table maps the key to |
| `Assoc.InsertRepresents` | sw/apps/memcached/memcached/assoc.c:152-169 | an insert adds just that key to the map |
| `Assoc.DeleteRepresents` | sw/apps/memcached/memcached/assoc.c:171-188 | a delete removes just that key from the map |
| `Assoc.ExpandRepresents` | sw/apps/memcached/memcached/assoc.c:121-140 | starting an expansion leaves the map as it is |
| `AssocMigrate.MoveKeeps` | sw/apps/memcached/memcached/assoc.c:213-218 | moving one item to the new table leaves the map as it is |
| `AssocMigrate.ClearKeeps` | sw/apps/memcached/memcached/assoc.c:220 | clearing the old bucket leaves the map as it is |
| `AssocMigrate.BumpKeeps` | sw/apps/memcached/memcached/assoc.c:222 | advancing the bucket leaves the map as it is, without exception even before the end is declared |
| `AssocMigrate.EndKeeps` | sw/apps/memcached/memcached/assoc.c:223-224 | declaring the end of the expansion leaves the map as it is |
| `AssocMigrate.OtherStripe` | sw/apps/memcached/memcached/assoc.c:208-214 | a hash value in another lock stripe has another old bucket than the one being moved |
| `AssocMigrate.MoveStaysInStripe` | sw/apps/memcached/memcached/assoc.c:208-218 | an item is moved only to buckets of the stripe that is locked |
| `AssocMigrate.MoveIsLocal` | sw/apps/memcached/memcached/assoc.c:213-218 | moving an item changes neither route nor bucket of a hash value in another stripe |
| `AssocMigrate.ClearIsLocal` | sw/apps/memcached/memcached/assoc.c:220 | neither does clearing the old bucket |
| `AssocMigrate.BumpIsLocal` | sw/apps/memcached/memcached/assoc.c:222 | neither does the write that advances the bucket |
| `AssocMigrate.EndIsLocal` | sw/apps/memcached/memcached/assoc.c:223-224 | nor, for any hash value, the write that ends the expansion |
| `AssocMigrate.TornReadsAgree` | sw/apps/memcached/memcached/assoc.c:222-224 | a thread in another stripe that reads `expanding` before and `expand_bucket` after either write, or both, is sent to the same bucket |
| `AssocRuns.InsertIsLocal` | sw/apps/memcached/memcached/assoc.c:152-169 | neither does an insert under another lock change them |
| `AssocRuns.DeleteIsLocal` | sw/apps/memcached/memcached/assoc.c:171-188 | nor a delete |
| `AssocRuns.OthersAreLocal` | sw/apps/memcached/memcached/assoc.c:73-224 | no step of any other thread, worker or mover, changes route, pointer or links of a bucket whose lock is held |
| `AssocRuns.StepKeeps` | sw/apps/memcached/memcached/assoc.c:73-260 | every step of workers and of the migration keeps table and map together |
| `AssocRuns.StepExists` | sw/apps/memcached/memcached/assoc.c:73-260 | every step that is enabled can be made |
| `AssocRuns.RunIsGood` | sw/apps/memcached/memcached/assoc.c:73-260 | table and map agree after every run |
| `AssocRuns.LookupsAgree` | sw/apps/memcached/memcached/assoc.c:73-97 | in every run a lookup under its lock, even mid-migration and between the last two writes of a bucket's move, finds what the map has |
| `AssocRuns.WalksAreStable` | sw/apps/memcached/memcached/assoc.c:73-118 | over any stretch of a run in which only others take steps, the bucket of a key whose lock is held keeps its pointer, links and items, so it can be walked meanwhile |
| `AssocRuns.MovesCounted` | sw/apps/memcached/memcached/assoc.c:222-224 | the bucket to move next counts the moves since the expansion began |
| `AssocRuns.ExpansionEnds` | sw/apps/memcached/memcached/assoc.c:222-224 | an expansion ends after exactly as many moves as the old table has buckets, with all of them empty |
| `AssocTable.Table.Find` | sw/apps/memcached/memcached/assoc.c:73-97 | the loop over the links returns the item the map has, or none |
| `AssocTable.Table.HashItemBefore` | sw/apps/memcached/memcached/assoc.c:102-118 | the position whose pointer leads to the item, or the end of the bucket |
| `AssocTable.Table.Insert` | sw/apps/memcached/memcached/assoc.c:152-169 | relinks in place; the map gains the item |
| `AssocTable.Table.Delete` | sw/apps/memcached/memcached/assoc.c:171-188 | unlinks in place; the map loses the key |
| `AssocTable.Table.StartExpand` | sw/apps/memcached/memcached/assoc.c:121-140 | starts an expansion if memory was found; the map is unchanged |
| `AssocTable.Table.MoveBucket` | sw/apps/memcached/memcached/assoc.c:213-224 | moves a whole bucket in a loop; the map is unchanged and the expansion ends at the last bucket |
| `LruLists.LinkHead` | sw/apps/memcached/memcached/items.c:406-431 | the new item is in front of a well-formed list, no other item's links change |
| `LruLists.LinkTail` | sw/apps/memcached/memcached/items.c:1730-1749 | the crawler is behind a well-formed list |
| `LruLists.Unlink` | sw/apps/memcached/memcached/items.c:1751-1770 | the item is out of a well-formed list; a crawler already popped off is taken out without harm |
| `LruLists.Crawl` | sw/apps/memcached/memcached/items.c:1774-1826 | the crawler changes places with the item before it, which is returned, or is popped off the front |
| `LruLists.Swing` | sw/apps/memcached/memcached/items.c:1792-1821 | all the pointer changes of the swap leave a well-formed list |
| `Crawling.SweepStep` | sw/apps/memcached/memcached/crawler.c:385-393 | linking, unlinking or a turn keeps: kept items behind the crawler are those handed out, in reverse |
| `Crawling.CrawlSweeps` | sw/apps/memcached/memcached/crawler.c:342-413 | however items are linked and unlinked meanwhile, a finished crawl without limit handed out the items that stayed once each, tail to head |
| `Crawling.WholeCrawl` | sw/apps/memcached/memcached/crawler.c:522-555 | the same from the start of a crawl |
| `Crawling.HandedOnce` | sw/apps/memcached/memcached/crawler.c:342-413 | each item that stays is handed out exactly once |
| `Crawling.CrawlerIsInvisible` | sw/apps/memcached/memcached/items.c:1774-1826 | the crawler never reorders, adds or loses an item |
| `Crawling.AloneFromStart` | sw/apps/memcached/memcached/crawler.c:536-547 | undisturbed, exactly the first n items from the tail are handed out when n are asked for, all for 0 or the list size |
| `Items.LinkKeeps` | sw/apps/memcached/memcached/items.c:484-504 | linking keeps flag, table, list and counters together |
| `Items.UnlinkKeeps` | sw/apps/memcached/memcached/items.c:506-519 | unlinking does, and the item loses just the reference its link was |
| `Items.RemoveKeeps` | sw/apps/memcached/memcached/items.c:537-545 | giving up a reference does, and frees the item with the last one |
| `Items.MoveKeeps` | sw/apps/memcached/memcached/items.c:557-561 | moving an item between lists keeps it in exactly one |
| `Items.UpdateKeeps` | sw/apps/memcached/memcached/items.c:548-575 | an update keeps everything and unlinks nothing |
| `Items.UpdateMoves` | sw/apps/memcached/memcached/items.c:551-574 | an active COLD item goes to the front of WARM and is inactive there; unsegmented, an idle item goes to the front of its list; nothing else changes |
| `ItemRuns.StepKeeps` | sw/apps/memcached/memcached/items.c:406-584 | every operation keeps the invariant and the references held |
| `ItemRuns.ReplaceFits` | sw/apps/memcached/memcached/items.c:577-584 | once the old item is unlinked, if it still was linked, the new one can be linked under its key |
| `ItemRuns.PullKeeps` | sw/apps/memcached/memcached/items.c:1080-1254 | so does pulling from a tail |
| `ItemRuns.CrawlStartKeeps` | sw/apps/memcached/memcached/items.c:1730-1749 | so does putting a crawler behind its list |
| `ItemRuns.CrawlTurnKeeps` | sw/apps/memcached/memcached/items.c:1774-1826 | so does every turn of a crawler |
| `ItemRuns.CrawlDoneKeeps` | sw/apps/memcached/memcached/items.c:1751-1770 | so does taking a crawler out |
| `ItemRuns.AllAgree` | sw/apps/memcached/memcached/items.c:406-584 | after any run, with hits, locks, pulls and crawlers in it, the linked flag, the table and exactly one list agree, the item count is the table size and the sum of the sizes, the crawlers uncounted, and counts of references are right |
| `ItemRuns.HitsWarm` | sw/apps/memcached/memcached/items.c:548-560 | such a run from an empty cache in which a COLD item is hit and moves to WARM |
| `ItemPull.ReclaimedIsFair` | sw/apps/memcached/memcached/items.c:1136-1153 | an expired item is unlinked and loses only its link reference; the lock is released |
| `ItemPull.RescuedIsFair` | sw/apps/memcached/memcached/items.c:1165-1174 | an active WARM item goes to the front of its list with its references unchanged |
| `ItemPull.FinishIsFair` | sw/apps/memcached/memcached/items.c:1155-1251 | what happens to the item that ends the search leaves locks and references as they were, one more of each if the item was asked for |
| `ItemPull.FateIsDone` | sw/apps/memcached/memcached/items.c:1155-1250 | an item moved is first in the list it was sent to, one evicted is unlinked, and otherwise no list changes; the count says which |
| `ItemPull.PullIsBalanced` | sw/apps/memcached/memcached/items.c:1096-1250 | so for every path of the loop |
| `ItemPull.PullIsBounded` | sw/apps/memcached/memcached/items.c:1098-1112 | at most as many real items are examined as there are tries, although crawlers give a try back |
| `ItemPull.ReturnsWhatItKeeps` | sw/apps/memcached/memcached/items.c:1218-1250 | the item kept locked and referenced is the one returned, unless an item was asked for from another list than COLD or with eviction and the call ended at one |
| `ItemPullCases.FlagsDecide` | sw/apps/memcached/memcached/items.c:1218-1250 | in every cache the item kept is the item returned exactly when no item is asked for, or one is asked for from COLD without eviction |
| `ItemPullCases.ItemIsLost` | sw/apps/memcached/memcached/items.c:1218-1250 | with any other flags that ask for an item there is a cache whose item stays locked and referenced although none is returned |
| `ItemPull.PullTailIsBalanced` | sw/apps/memcached/memcached/items.c:1080-1254 | a whole call: five items at most, every reference and lock accounted for, only lists of the class changed, only expired or evicted items gone; which items it looks at is `ItemPullSeen.SearchesFromTheTail` |
| `ItemPullCount.CountIsEffect` | sw/apps/memcached/memcached/items.c:1078-1254 | the count returned is the items unlinked, rescued and moved, unless a crawler blocked the call, when it is 0 whatever was done before |
| `ItemPullSeen.SearchesFromTheTail` | sw/apps/memcached/memcached/items.c:1089-1237 | unless a crawler blocks it, a call looks at the real items of its list in order from the tail, five at most; all before the last were locked, expired or rescued, and it ends at the last exactly if that was none of these; only a WARM list passed in full may end it at an item put back in front |
| `ItemPullSeen.BlockedAtCrawler` | sw/apps/memcached/memcached/items.c:1103-1108 | a call that a crawler blocks has looked at just the items behind that crawler |
| `ItemPullSeen.LeastRecentEnds` | sw/apps/memcached/memcached/items.c:1098-1254 | outside WARM lists behind the item a call ends at were only crawlers, locked items and expired ones now gone; it is the one evicted or handed out from a COLD list |
| `ItemPullSeen.ActiveEndsIff` | sw/apps/memcached/memcached/items.c:1160-1188 | a call on a WARM list ends at an item that was active, although those are to be rescued, exactly if it has fewer than five items, passes all of them and puts one back in front of another |
| `ItemPullCases.RescuedGoesCold` | sw/apps/memcached/memcached/items.c:1160-1188 | an active item with a crawler in front of it in a WARM list is put back in front, met again and sent to COLD, if it is old enough |
| `ItemPullCount.CountIsRightUnless` | sw/apps/memcached/memcached/items.c:1107-1112 | so it is wrong exactly when a crawler blocks the call after work on at least one item |
| `ItemPullCases.BlockedCountIsWrong` | sw/apps/memcached/memcached/items.c:1107-1112 | a crawler in front of an expired item: the item is gone and the count is 0 |
| `ItemCache.ItemStore.constructor` | sw/apps/memcached/memcached/items.c:55-59 | an empty store agrees with an empty cache |
| `ItemCache.ItemStore.LinkQ` | sw/apps/memcached/memcached/items.c:406-431 | in place: the item is first in its list, and size and bytes go up |
| `ItemCache.ItemStore.UnlinkQ` | sw/apps/memcached/memcached/items.c:446-476 | in place: the item is in no list, and size and bytes go down |
| `ItemCache.ItemStore.Link` | sw/apps/memcached/memcached/items.c:484-504 | does what linking means for flag, counters, table and list |
| `ItemCache.ItemStore.Unlink` | sw/apps/memcached/memcached/items.c:506-519 | does what unlinking means, nothing for an item that is not linked |
| `ItemCache.ItemStore.Update` | sw/apps/memcached/memcached/items.c:548-575 | does what an update means, segmented or not |
| `ItemCache.ItemStore.Move` | sw/apps/memcached/memcached/items.c:557-561 | takes an item from one list to the front of another |
| `ItemCache.ItemStore.Reclaim` | sw/apps/memcached/memcached/items.c:1136-1153 | frees an expired item |
| `ItemCache.ItemStore.Rescue` | sw/apps/memcached/memcached/items.c:1165-1174 | puts an active item back in front |
| `ItemCache.ItemStore.Settle` | sw/apps/memcached/memcached/items.c:1175-1251 | moves, evicts, returns or leaves the item that ends the search |
| `ItemCache.ItemStore.PullTail` | sw/apps/memcached/memcached/items.c:1080-1254 | the loop from the tail, with items relinked and unlinked under it, gives the result of the recursive definition, and outside WARM lists ends at the least recently used item that is neither locked nor expired |
| `CrawlerItems.CrawlerIsNoItem` | sw/apps/memcached/memcached/items.c:1730-1770 | where a crawler is in its list, or whether it is, changes no flag, size or total |
| `Crawlers.SizeIsLength` | sw/apps/memcached/memcached/crawler.c:536-538 | while its crawler is away the size of a list is its length |
| `Crawlers.OthersAreEvents` | sw/apps/memcached/memcached/items.c:406-476 | what others link and unlink reaches list and walk alike |
| `Crawlers.CrawlerSet.Start` | sw/apps/memcached/memcached/crawler.c:522-556 | starts a crawl with the right limit behind the list, unless one is under way there |
| `Crawlers.CrawlerSet.Turn` | sw/apps/memcached/memcached/crawler.c:385-393 | one turn makes the step of the walk: the item swung over is handed out unless the limit is reached |
| `Crawlers.CrawlerSet.Done` | sw/apps/memcached/memcached/crawler.c:342-352 | the crawler leaves its list and is no longer counted |
| `Crawlers.CrawlerSet.CrawlQ` | sw/apps/memcached/memcached/items.c:1774-1826 | moves the crawler in the list in place |
| `Crawlers.CrawlerSet.LinkTail` | sw/apps/memcached/memcached/items.c:1730-1749 | puts the crawler behind the list in place |
| `Crawlers.CrawlerSet.UnlinkTail` | sw/apps/memcached/memcached/items.c:1751-1770 | takes the crawler out in place |
| `Bip.OfferAppends` | sw/apps/memcached/memcached/bipbuffer.c:109-128 | writing and pushing appends to the queue and touches no byte in it |
| `Bip.PollDrops` | sw/apps/memcached/memcached/bipbuffer.c:151-180 | polling within region A removes from the front |
| `Bip.PollSoundIff` | sw/apps/memcached/memcached/bipbuffer.c:151-180 | a poll keeps the buffer sound exactly when it stays within region A |
| `Bip.PollAcrossRegions` | sw/apps/memcached/memcached/bipbuffer.c:151-180 | two bytes in two regions: polling both at once is accepted and unsound |
| `Bip.PollBreaks` | sw/apps/memcached/memcached/bipbuffer.c:151-180 | offers and polls that reach such a buffer, and the poll that leaves it unsound |
| `Bip.BipBuffer.constructor` | sw/apps/memcached/memcached/bipbuffer.c:42-56 | a new buffer is empty |
| `Bip.BipBuffer.Room` | sw/apps/memcached/memcached/bipbuffer.c:23-30 | the longest stretch from where bytes go next that holds nothing of the queue |
| `Bip.BipBuffer.Used` | sw/apps/memcached/memcached/bipbuffer.c:37-40 | the length of the queue |
| `Bip.BipBuffer.IsEmpty` | sw/apps/memcached/memcached/bipbuffer.c:63-66 | the buffer is empty exactly when the queue is |
| `Bip.BipBuffer.Request` | sw/apps/memcached/memcached/bipbuffer.c:77-89 | a place clear of all bytes in the buffer exactly when there is room |
| `Bip.BipBuffer.Push` | sw/apps/memcached/memcached/bipbuffer.c:91-107 | appends the bytes at the requested place if they fit |
| `Bip.BipBuffer.Offer` | sw/apps/memcached/memcached/bipbuffer.c:109-128 | appends the given bytes if they fit |
| `Bip.BipBuffer.Peek` | sw/apps/memcached/memcached/bipbuffer.c:130-140 | where the front of the queue is |
| `Bip.BipBuffer.PeekAll` | sw/apps/memcached/memcached/bipbuffer.c:142-149 | region A, the front of the queue |
| `Bip.BipBuffer.Poll` | sw/apps/memcached/memcached/bipbuffer.c:151-180 | refused exactly if the buffer is empty or the store ends before; within region A it removes from the front, the bytes still readable at the place returned; beyond it the buffer is no longer sound |
| `Bumps.DecodeEncode` | sw/apps/memcached/memcached/items.c:96-99 | an entry is read as written, whatever its padding |
| `Bumps.StaysAligned` | sw/apps/memcached/memcached/items.c:1293-1346 | whole entries keep all bounds at multiples of the entry size |
| `Bumps.WindowDone` | sw/apps/memcached/memcached/items.c:1325-1343 | the entry read from memory is the one the queue has, although the lock was dropped |
| `Bumps.StepKeeps` | sw/apps/memcached/memcached/items.c:1289-1351 | pushes by workers and the maintainer's peek, reads and poll keep the account of references |
| `Bumps.FreedAreTaken` | sw/apps/memcached/memcached/items.c:1289-1351 | in every interleaving references are given up once each, on the same items and in order, and all of them once the buffer is empty |
| `Bumps.Enqueue` | sw/apps/memcached/memcached/items.c:1293-1303 | the entry is queued exactly if there is room |
| `BumpItems.BumpAsync` | sw/apps/memcached/memcached/items.c:1289-1310 | a reference is taken for the entry queued, or given back when the buffer is full; every entry has its reference, and everyone else's are unchanged |
| `BumpItems.FreeEntries` | sw/apps/memcached/memcached/items.c:1336-1343 | the todo loop updates the item of each entry and gives its reference up, oldest first; every item hit has then left COLD |
| `BumpItems.Maintain` | sw/apps/memcached/memcached/items.c:1325-1349 | an undisturbed round takes region A off the queue, updates just those items and gives up just their references; every entry left still has its own, and everyone else's are unchanged |
| `BumpRuns.StepKeeps` | sw/apps/memcached/memcached/items.c:1289-1351 | whatever others do to items, queueing one and each section of the maintainer leave everyone else's references as they were, and every entry not yet gone through has its own |
| `BumpRuns.FreeKeeps` | sw/apps/memcached/memcached/items.c:1336-1343 | the section for one entry, at any time: its item has then left COLD if it was hit, and loses just the entry's reference |
| `BumpRuns.AlwaysBacked` | sw/apps/memcached/memcached/items.c:1289-1351 | in every interleaving of workers, the maintainer and all other operations on items, an entry not yet gone through keeps its item alive, and an item's references are those entries' and the ones clients made |
| `Ring.SeesExactlyNew` | sw/src/completion_queue.cc:44-47 | the test "valid and changed" holds exactly when a packet is waiting |
| `Ring.StepKeeps` | sw/src/rpc_server_thread.cc:94-112 | writing, polling and copying keep the account of packets |
| `Ring.DeliversInOrder` | sw/src/completion_queue.cc:38-77 | if tags change in every slot and the writer does not lap the reader, packets are delivered once and in order |
| `Ring.StreamArrives` | sw/src/rpc_server_thread.cc:94-112 | a stream whose tags change in every slot arrives so |
| `Ring.SeenExactlyWhenFresh` | sw/src/completion_queue.cc:44-47 | in all runs the reader sees every packet that waits exactly if the tags change in every slot |
| `Ring.Unseen` | sw/src/completion_queue.cc:44-47 | otherwise a run ends with a packet that waits and is not seen |
| `RpcQueues.TxQueue.constructor` | sw/src/tx_queue.cc:18-51 | depth 2^l and all change bits set |
| `RpcQueues.TxQueue.GetWritePtr` | sw/src/tx_queue.h:39-58 | call n gives slot n mod depth with a bit that alternates from round to round, 1 first |
| `RpcQueues.RxQueue.constructor` | sw/src/rx_queue.cc:16-42 | depth 2^l and all ids set to 0xffffffff |
| `RpcQueues.RxQueue.GetReadPtr` | sw/src/rx_queue.h:40-48 | slots come up round and round, each with the id of the packet one round before, or all ones in the first round |
| `RpcQueues.RxQueue.UpdateRpcId` | sw/src/rx_queue.h:50-61 | of all ids it was called with, each slot keeps the last one for it |
| `RpcQueues.RxQueue.Pull` | sw/src/completion_queue.cc:38-54 | one look makes the poll step of the ring |
| `RpcQueues.TxIsFresh` | sw/src/tx_queue.h:39-58 | change bits differ from those of the round before in every slot |
| `RpcQueues.SameId` | sw/codegen/rpc_gen.py:422-423 | ids are equal exactly for one client and counts a multiple of 65536 apart |
| `RpcQueues.IdSplits` | sw/codegen/rpc_gen.py:422-423 | the client is the low half of an id and its call count, modulo 65536, the high half; only the last count of client 65535 gives the id that stands for none |
| `RpcQueues.RxFreshExactly` | sw/codegen/rpc_gen.py:422-462 | whatever calls of whatever clients arrive on a ring, tags change in every slot exactly if no client has counts a multiple of 65536 apart one round apart |
| `RpcQueues.CountsInStep` | sw/codegen/rpc_gen.py:422-462 | it is enough that a client's counts grow by 1 to 65535 from one round of a slot to the next |
| `RpcQueues.OneFlow` | sw/codegen/rpc_gen.py:422-462 | it is so with fewer than 65536 slots when every call arrives on this ring in call order |
| `RpcQueues.TwoFlows` | sw/src/rpc_threaded_server.h:59-61 | not when two rings of 32768 slots share one client's calls in turn: a packet of the second round waits and is not seen |
| `RpcQueues.TxDelivers` | sw/src/tx_queue.h:39-58 | a transmission ring of any depth delivers once and in order |
| `RpcQueues.RxDelivers` | sw/src/rx_queue.h:40-61 | a receive ring shows its reader every packet that waits, in all runs, exactly under that condition, and then delivers once and in order |
| `RpcQueues.TooDeep` | sw/codegen/rpc_gen.py:422-462 | with any 2^l slots, l at least 16, a packet of a single client waits and is not seen |
| `Jenkins.MixInverts` | sw/apps/memcached/memcached/jenkins_hash.c:79-87 | mix can be undone and reaches every state |
| `JenkinsStates.FinalInverts` | sw/apps/memcached/memcached/jenkins_hash.c:114-123 | the final mixing can be undone and reaches every state; the hash takes its third word |
| `JenkinsStates.HashIsThird` | sw/apps/memcached/memcached/jenkins_hash.c:125-297 | the hash of every key is the third word of that bijection at the state its blocks lead to |
| `JenkinsStates.BlocksCount` | sw/apps/memcached/memcached/jenkins_hash.c:125-297 | keys of one length that differ in one block only lead to different states |
| `JenkinsStates.ShortKeysDiffer` | sw/apps/memcached/memcached/jenkins_hash.c:125-297 | different keys of one length of at most twelve bytes lead to different states |
| `JenkinsStates.PublishedValues` | sw/apps/memcached/memcached/jenkins_hash.c:125-297 | the published values of the empty key and of the 30-byte key of the test driver of lookup3, at seed 0 |
| `Jenkins.LoadThree` | sw/apps/memcached/memcached/jenkins_hash.c:166-181 | bytes read past the key are masked off: three bytes of a word |
| `Jenkins.LoadTwo` | sw/apps/memcached/memcached/jenkins_hash.c:166-181 | two bytes of a word |
| `Jenkins.LoadOne` | sw/apps/memcached/memcached/jenkins_hash.c:166-181 | one byte of a word |
| `Jenkins.AddBytes` | sw/apps/memcached/memcached/jenkins_hash.c:258-269 | adding a word byte by byte |
| `Jenkins.AddBytesDown` | sw/apps/memcached/memcached/jenkins_hash.c:276-290 | adding it from the highest byte down |
| `Jenkins.AddHalves` | sw/apps/memcached/memcached/jenkins_hash.c:212-214 | adding it in two halves |
| `JenkinsHash.LastWords` | sw/apps/memcached/memcached/jenkins_hash.c:166-181 | the switch over the last block, masked words |
| `JenkinsHash.HashWords` | sw/apps/memcached/memcached/jenkins_hash.c:137-181 | the word path is the hash of the key's bytes, of which `JenkinsStates.HashIsThird` and `JenkinsStates.PublishedValues` say what it is |
| `JenkinsHash.LastHalves` | sw/apps/memcached/memcached/jenkins_hash.c:222-250 | the switch over the last block, half words |
| `JenkinsHash.HashHalves` | sw/apps/memcached/memcached/jenkins_hash.c:205-250 | the half-word path is the hash of the key's bytes, of which `JenkinsStates.HashIsThird` and `JenkinsStates.PublishedValues` say what it is |
| `JenkinsHash.LastByteByByte` | sw/apps/memcached/memcached/jenkins_hash.c:276-292 | the switch over the last block, falling through byte by byte |
| `JenkinsHash.HashBytes` | sw/apps/memcached/memcached/jenkins_hash.c:252-292 | the byte path is the hash of the key's bytes, of which `JenkinsStates.HashIsThird` and `JenkinsStates.PublishedValues` say what it is |
| `JenkinsHash.HashKey` | sw/apps/memcached/memcached/jenkins_hash.c:125-297 | whichever path the address calls for, the hash is that same function of the key's bytes only |
| `Itoa.DigitsValue` | sw/apps/memcached/memcached/itoa_ljust.c:92-117 | digits read back as the number and start with no zero |
| `Itoa.RowDigits` | sw/apps/memcached/memcached/itoa_ljust.c:64-69 | the table holds the two digits of every number below 100 |
| `Itoa.Out2` | sw/apps/memcached/memcached/itoa_ljust.c:73-76 | two digits are written by one lookup |
| `Itoa.FirstDigit` | sw/apps/memcached/memcached/itoa_ljust.c:83-90 | the leading digit is written exactly if the number of digits is odd |
| `Itoa.TwoMore` | sw/apps/memcached/memcached/itoa_ljust.c:94-102 | a pair of digits is written and the rest kept, in 32-bit arithmetic |
| `Itoa.Write` | sw/apps/memcached/memcached/itoa_ljust.c:92-107 | entered at any case the switch writes the remaining digits and the NUL |
| `Itoa.U32` | sw/apps/memcached/memcached/itoa_ljust.c:109-117 | writes the digits of the number, the NUL, and nothing else |
| `Itoa.I32` | sw/apps/memcached/memcached/itoa_ljust.c:119-126 | the same with a sign |
| `Itoa.U64` | sw/apps/memcached/memcached/itoa_ljust.c:128-140 | the same for 64 bits, nine digits at a time |
| `Itoa.I64` | sw/apps/memcached/memcached/itoa_ljust.c:142-149 | the same for 64 bits with a sign |
| `Itoa.TextParses` | sw/apps/memcached/memcached/itoa_ljust.c:119-149 | every number printed reads back as itself, in the characters 0 to 9 behind a minus sign if it is negative |
| `Itoa.TextFits` | sw/apps/memcached/memcached/itoa_ljust.c:128-149 | twenty characters are enough |

## Left out

- Statistics, logging, tracing, verbose output and the callbacks into them.
- The engine's class has methods for the sections under a mutex; the copying of single bytes to and from the
  disk and the queueing of reads are steps only.
- External store: order, depth and batching of io queues, reads into vectors, opening files, out-of-memory
  paths, and what is read of a page's flags outside its mutex.
- External store writes that fail or are short; the source leaves looping over them as a note.
- Hash table: the signal that starts an expansion, its upper limit, pausing of threads, and moving several
  buckets per turn.
- Items: allocation and freeing of slabs, item chunks, CAS ids, the size histogram, the external header of an
  item, and tail repair.
- `lru_pull_tail` between dropping the list lock and linking the item again: other threads may change lists
  there, but not that item, which is locked.
- The scheduling loop of the LRU maintainer and the juggling of limits by age.
- Crawler: its lock and reference on an item handed out, the modules that look at items, its clients and
  their buffers, and the unlocking on the paths where a client has failed.
- Bump buffers: their list, the statistics of dropped bumps, and the flag by which `do_item_bump` tells a
  first hit from a second.
- RPC: NIC drivers, connections, client pools and threaded servers, packets of more than one frame, the
  batches of the server loop cut short by its stop signal, and `pop_response`, which takes the newest
  response first.
- Jenkins hash for big-endian machines, and its variant for memory checkers.
- Command line, authentication, the text protocol and code generation other than the RPC id.
- The bytes of a bump buffer before the first push: zeros in the model, anything in the source; none is read
  before it is written.

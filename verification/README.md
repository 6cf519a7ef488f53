# Verified model of the deduplicating NCCL network plugin

The plugin removes redundant bytes from messages between two machines. The sender cuts a message into
content-defined chunks and announces their fingerprints; the receiver fills in the chunks its page cache
already holds and asks for the others only. This project models the four pieces this rests on and proves
that, stacked, they deliver what plain copies would, and that content the receiver has had before is not sent
again.

- **Index** (`Words`, `Probing`, `EmptySearch`, `FingerprintTable`, `TableRuns`): the open-addressing table
  with its emptiness bit vector, as a class over arrays. It refines a finite map, for any size and any hash
  into it: word-wise search, linear probing across the end of the array, backward-shift deletion.
- **Page cache** (`CacheSpec`, `PageCache`, `CacheRuns`): the page ring, the scattering and gathering of
  content, and the index above them, as a class that refines "fingerprint to the first content stored".
  `ConcurrentLookup` has the unlocked lookup interleaved with the separate writes of an insert.
- **Chunker** (`Congruence`, `RollingHash`, `Tiling`, `Chunker`, `CutRule`, `CutValue`, `Misread`, `ChunkCount`): the
  rolling hash with its 64-bit wrap-around and masks, the cut loop over arrays, the rule it follows as arithmetic
  on the bytes of the message alone, and how many chunks a message can have.
- **Transfer** (`Wire`, `Protocol`, `Streams`, `Invariants`, `SenderSteps`, `ReceiverSteps`, `Transparency`,
  `Progress`, `DedupTransfer`): the two ten-stage state machines and their joint system over two byte streams,
  for any number of messages on a connection, either side being ahead. `Protocol.SendStep` and
  `Protocol.RecvStep` say what one socket call or local action does in each stage; `Protocol.Next` joins them.
  `Sockets`, `SendRequest` and `RecvRequest` are the request objects with their fixed arrays, their stage
  functions and the `process_send` / `process_recv` loops, each call of which is shown to be a run of those
  machines; `Refinement` ties the two levels together, and `Endpoints` lets the two loops run against each other
  to the end. `OnTheWire` gives the place of every byte sent, `StageEffects` what the stages that look up and
  insert come to, and `Reuse` what is not sent a second time. `HeaderResume` covers resumed headers, `RequestGate`
  and `GateTraces` the descriptor gate of isend, irecv and test.

`Settings` has the constants, `Bytes` and `Words` the byte strings and bit words all of this is about.

## How to read the model

- The digest is a function parameter `fp`. The theorems about transfers take a set of contents that are ever
  compared (the chunks of all messages and whatever the caches hold) and assume that no two of them have the
  same fingerprint and none has the all-zero one (`Invariants.CollisionFree`). A fingerprint is a 256-bit
  number.
- A socket call moves any number of bytes, or none. A result of -1 changes nothing, because the test after
  each call assigns `EAGAIN` to `errno` (net_dedup.c:730 and the like), so the error branch is never taken.
  The connection stays up. A socket keeps a ghost log of its calls, what each was asked to move and what it
  moved, so that a stage can say why it goes no further. Progress is stated for calls that find the cache lock
  free, a parameter, and for *willing* sockets, which move something whenever they can.
- An insert into a cache is one step of the joint system, and so is a lookup together with the copy behind it;
  other users of the cache act between such steps. In the source lookups take no lock.
  `ConcurrentLookup.Linearizes` says that they may be taken for one step unless they end in the extra slot of a
  wrapped probe. The theorems about transfers assume that no lookup returns an entry that is only half inserted
  there; `ConcurrentLookup.LookupExact` says exactly when one does.
- The general header and the fingerprint header move whole. The source adds their byte offsets to struct
  pointers, so a resumed header goes wrong; `HeaderResume` proves that it arrives intact for every content of
  memory exactly when one call moves all of it. All other parts move in arbitrary pieces.
- A message is at most as long as the receive posted for it, and its chunks fit the arrays of a request
  (`DedupTransfer.Posted`).
- Other connections and processes that use a cache, the peer on the same machine included, are environment
  steps that may store more but never change what is stored. They may also set the process-wide flag that
  stops inserts.
- Bit operations of the index are on 64-bit words taken as strings of bits; masks in the chunker are
  remainders by powers of two, and 64-bit wrap-around is a remainder by 2^64.

## Where the code needs conditions

- The extra slot that a wrapped probe looks at (fingerprint_table.c:242) may hold a key whose insert has not
  written its entry yet. `ConcurrentLookup.LookupSound` holds for every hit outside that slot, and
  `WrappedProbeUnsound` is a run in which the slot matters. `ConcurrentLookup.LookupExact` is the exact
  condition, for any slot: the entry returned leads to the right content if and only if it was not read while
  the writer of that slot had written the key and not yet the entry.
- A full table is probed without wrapping (lines 236-237); `FingerprintTable.Find` states exactly what is found
  then, and for the zero key. Nor does the walk behind a removed item pass the end of the array:
  `FingerprintTables.FullRemovalExact` says that every stored key of a full table can be removed if and only if
  no item lies before its home.
- The arrays of a request have 4096 elements (config.h:11), and nothing bounds the number of chunks of a
  message. `ChunkCounts.FitsRequest` says for every length whether all messages of that length fit: if and only
  if it is below 4097 times 2048 bytes. The zero message of that length does not fit, since the hash 0 of zeros
  is the cutting value.
- Asking again about a request that was reported complete clears the mark of a descriptor that another request
  may be using (net_dedup.c:2096-2114). `RequestGate.GateExact` is the exact condition over runs;
  `RequestGate.StaleRunLoses` is a run in which a request in progress is handed out a second time.
- `window_slot` is carried over to the next chunk (fingerprint.c:79, 106-110), so the rolled value of a later
  chunk stands for the ring read from the slot only under the condition of `RollingHash.RollingExact`;
  `Misread.SecondChunkMisread` is a family of messages whose second chunk fails it throughout. Chunks still
  tile the message and, with a minimum chunk still to come, depend only on the bytes up to their end.
- A duplicate insert takes pages before the index is searched (fingerprint_cache.c:125-132); they are never
  used again. `PageCache.PagesConserved` accounts for them.

## Model

| member | source | states |
|---|---|---|
| `Words.CountTrailingZeros` | fingerprint_table.c:121-122 | the lowest set bit of a nonzero word |
| `EmptySearch.NextEmpty` | fingerprint_table.c:67-130 | the first empty slot cyclically at or after the start, or the table size exactly when none is empty; sizes need not be multiples of 64 |
| `EmptySearch.ScanHit` | fingerprint_table.c:89-125 | a set bit met by the scan, the masked low bits of the first word included, is the nearest empty slot |
| `EmptySearch.ScanMiss` | fingerprint_table.c:103-129 | a scan that comes around to its first word again has shown that every slot is occupied |
| `Probing.NextEmptyUnique` | fingerprint_table.c:76-89 | the nearest empty slot is one slot, so that find and insert agree on it |
| `Probing.StoredBeforeEmpty` | fingerprint_table.c:220-243 | a stored key lies on the walk from its home slot before the first empty slot |
| `Probing.InsertKeeps` | fingerprint_table.c:155-197 | placing an absent key in the first empty slot keeps every key reachable and adds just that binding |
| `FingerprintTables.FingerprintTable.constructor` | fingerprint_table.c:25-58 | the initial table stands for the empty map, each of its slots being marked empty and no bit beyond them |
| `FingerprintTables.FingerprintTable.Insert` | fingerprint_table.c:137-202 | refused exactly when full, leaving all as it was; otherwise the item goes to the nearest empty slot, stored a second time if the key is there; for a new nonzero key the map gains the binding |
| `FingerprintTables.FingerprintTable.Find` | fingerprint_table.c:206-279 | with a slot empty the search is exact; in a full table it finds just the keys stored at or after their home; for the zero key, just the extra slot of a wrapped probe |
| `FingerprintTables.FindHit` | fingerprint_table.c:248-260 | a match within the number of slots examined is the stored entry |
| `FingerprintTables.FindMiss` | fingerprint_table.c:235-278 | no match within them means the key is absent, or cannot be reached in a full table |
| `FingerprintTables.FingerprintTable.Remove` | fingerprint_table.c:289-387 | what the lookup finds is taken out, in any table: value returned, items shifted, last hole cleared, count lowered; for a nonzero key, when a slot is empty or no item of a full table lies before its home, the map loses just that binding |
| `FingerprintTables.FingerprintTable.CloseGap` | fingerprint_table.c:320-368 | the loop leaves the items and the hole of the walk that starts behind the removed item, in a full table too |
| `FingerprintTables.FingerprintTable.Vacate` | fingerprint_table.c:370-383 | clears the slot, sets its bit and lowers the count |
| `FingerprintTables.RemovalOK` | fingerprint_table.c:289-387 | after the walk, emptying the last hole cuts no item off from its home and loses no binding but the one removed |
| `FingerprintTables.FullRemovalExact` | fingerprint_table.c:289-387 | in a full table every stored key can be removed, leaving the map without it, if and only if no item lies before its home |
| `Probing.MustMoveMeaning` | fingerprint_table.c:350-351 | the two-case index test says that the hole lies on the item's walk from its home, across the end of the array too |
| `Probing.ShiftStart` | fingerprint_table.c:302-334 | at the start only items behind the hole, up to the next empty slot, can depend on it |
| `Probing.ShiftSkip` | fingerprint_table.c:338-368 | an item that fails the test can stay |
| `Probing.ShiftMove` | fingerprint_table.c:353-359 | an item that passes it is reachable in the hole, and its old slot becomes the hole |
| `Probing.WalkShifts` | fingerprint_table.c:338-368 | up to the next empty slot the walk keeps every other item reachable and every other binding |
| `Probing.WalkFull` | fingerprint_table.c:328-368 | in a full table without wrapped items the walk to the end of the array does so too |
| `Probing.ShiftEnd` | fingerprint_table.c:372-383 | once the next empty slot is reached, clearing the hole restores the table |
| `FingerprintTables.NextEmptyExists` | fingerprint_table.c:142-159 | an empty slot exists exactly when the count is below the size |
| `TableRuns.Perform` | fingerprint_table.c:137-387 | each operation answers and changes the table as it would the map |
| `TableRuns.Run` | fingerprint_table.c:25-387 | from the initial table, every run of inserts, lookups and removals gives the answers of a finite map |
| `TableRuns.RepliesAreTheRule` | fingerprint_table.c:137-387 | those answers, from the operations alone: a lookup or a removal finds what was put last and not dropped since, and nothing otherwise; no other answers satisfy that |
| `PageCaches.PageCache.constructor` | fingerprint_cache.c:4-35 | the initial cache is empty with all its pages free |
| `PageCaches.PageCache.GetFreePages` | fingerprint_cache.c:39-54 | pages come in order and once each; a refusal takes none; the read index is determined by the number of free pages |
| `PageCaches.PageCache.WritePages` | fingerprint_cache.c:78-96 | the listed pages, the last one in part, hold the content, and no page given out before changes |
| `PageCaches.PageCache.PlaceContent` | fingerprint_cache.c:58-99 | refused exactly for want of pages or of room in an entry, and then nothing changes |
| `PageCaches.PageCache.Publish` | fingerprint_cache.c:132-142 | an absent fingerprint is recorded; a present one keeps its entry and the pages just taken are lost |
| `PageCaches.FindOrInsert` | fingerprint_cache.c:132-142 | the entry that comes back is the one the index holds afterwards |
| `PageCaches.PageCache.Insert` | fingerprint_cache.c:102-146 | the cache changes as its specification does; success, duplicate and refusal say what becomes of index, pages and retired pages |
| `PageCaches.PageCache.Lookup` | fingerprint_cache.c:151-161 | finds a fingerprint exactly when it is stored, with the entry whose pages hold its content; the all-zero one leads to an empty entry or to none |
| `PageCaches.PageCache.CopyContent` | fingerprint_cache.c:165-213 | writes exactly the content of the entry at its place in the destination |
| `PageCaches.Conservation` | fingerprint_cache.c:39-54 | owned and retired pages are disjoint and together are the pages given out |
| `PageCaches.PageCache.PagesConserved` | fingerprint_cache.c:39-72 | free, owned and retired pages add up to all pages, and the index has more slots than entries at all times |
| `PageCaches.RetireMore` | fingerprint_cache.c:125-135 | a duplicate insert retires its pages and no others |
| `PageCaches.OwnMore` | fingerprint_cache.c:125-142 | a new entry owns pages that no other entry owns, one at least |
| `PageCaches.ContentsSame` | fingerprint_cache.c:78-96 | writing pages not given out before changes no stored content |
| `PageCaches.GatherAt` | fingerprint_cache.c:165-213 | byte i of a content lies in the page listed at i / 4096, at i % 4096 |
| `CacheSpec.ChunkFits` | config.h:82-94 | content of at most the maximum plus the minimum chunk less one byte is refused only for want of free pages |
| `CacheSpec.FitsExactly` | fingerprint_cache.c:39-72 | content is taken exactly if it is no longer than the free pages nor than the pages of an entry, and costs the least number of pages that hold it |
| `CacheSpec.StoredStays` | fingerprint_cache.c:132-142 | what is stored under a fingerprint stays, whatever is done later |
| `CacheSpec.FirstContentWins` | fingerprint_cache.c:102-146 | in any run a lookup after a first successful insert returns the bytes of that insert |
| `CacheSpec.RepliesAreTheRule` | fingerprint_cache.c:102-213 | the answers of every run, from the operations and the answers before: a put is refused exactly when the pages left or those of an entry are too few, a get finds the first stored bytes; no other answers satisfy that |
| `CacheRuns.Perform` | fingerprint_cache.c:102-213 | inserts, and lookups with their copy, answer as the specification |
| `CacheRuns.Run` | fingerprint_cache.c:4-213 | and so does every run from the initial cache |
| `ConcurrentLookup.StepKeeps` | fingerprint_cache.c:125-136 | each single write of an insert and each single read of a lookup keeps what both rely on |
| `ConcurrentLookup.PublishReach` | fingerprint_table.c:182-197 | clearing the bit last makes a slot reachable that is complete by then |
| `ConcurrentLookup.ScanEnds` | fingerprint_table.c:228-243 | the scan of a lookup ends, and behind the slot of any key published when it began |
| `ConcurrentLookup.SizeOfAll` | fingerprint_cache.c:74-75 | the size noted in an entry is the length of all its pieces |
| `ConcurrentLookup.PublishedWasInserted` | fingerprint_cache.c:102-146 | what is published under a key is the content of an insert of that key |
| `ConcurrentLookup.LookupSound` | fingerprint_cache.c:151-161 | in every interleaved run a lookup misses no key published when it began, and an entry found outside the extra slot is published and leads to the content published for it, page by page and with its full size |
| `ConcurrentLookup.Linearizes` | fingerprint_cache.c:151-161 | a lookup that does not end in the extra slot answers as one atomic access would in some state between its begin and its end |
| `ConcurrentLookup.HitExact` | fingerprint_table.c:239-260 | in any reachable state after a match, the extra slot included: the key is published exactly if the slot is not the writer's, and the entry there leads to its content exactly if the writer is not between key and entry |
| `ConcurrentLookup.LookupExact` | fingerprint_table.c:239-260 | the same for what a lookup of any run returns |
| `ConcurrentLookup.FoundIsWhole` | fingerprint_table.c:239-260 | and that content is the one of an insert of the key in the run; with its size, exactly unless the last read falls between the writes of key and entry |
| `ConcurrentLookup.WrappedProbeUnsound` | fingerprint_table.c:239-260 | a run in which the extra slot yields a key that is not published and an entry that was never written |
| `RollingHash.GenTable` | fingerprint.c:3-13 | each entry is what its byte had contributed to the hash when it leaves the window, modulo 2^64 |
| `RollingHash.InitRabin` | fingerprint.c:30-40 | fills the window, and the backward loop gives the wrapped sum of masked terms |
| `RollingHash.InitSumCong` | fingerprint.c:30-40 | that sum is congruent, modulo 2^mBits, to the polynomial of the window |
| `RollingHash.RollCong` | fingerprint.c:115-117 | one step is the exact polynomial step, modulo 2^mBits, despite wrap-around and masks |
| `RollingHash.DefectRolls` | fingerprint.c:115-119 | the error against the ring read from the slot is multiplied by the base at each step |
| `RollingHash.AgreementRolls` | fingerprint.c:115-119 | with an odd base, as the source's is, a step keeps the value right if and only if it was right |
| `RollingHash.ScanAgreement` | fingerprint.c:88-121 | over a whole scan: right at its end exactly if right at its start, and the ring holds the last bytes read |
| `RollingHash.StartAgreement` | fingerprint.c:79-85 | a scan starts right exactly if the window has the same polynomial read from its first byte and from the slot; always with slot 0 |
| `RollingHash.RollingExact` | fingerprint.c:79-120 | so the rolled value of a chunk is right at every point or at none, by that condition |
| `RollingHash.RollingWrong` | fingerprint.c:106-110 | with the source's settings, a window and a slot for which it is wrong throughout |
| `Misread.FirstChunk` | fingerprint.c:88-121 | a message whose first chunk leaves the slot at 1 |
| `Misread.SecondChunkMisread` | fingerprint.c:106-121 | and whose second chunk is scanned with a wrong value at every point |
| `Chunker.DoFingerprinting` | fingerprint.c:55-127 | fills the arrays, which have room for n / min + 1 chunks, with the chunk lengths and the fingerprints of the chunks; reads stay in bounds and the loop ends |
| `Chunker.EndChunk` | fingerprint.c:91-110 | records the chunk with its tail rule and starts the next scan with the slot as it is |
| `Chunker.RollWindow` | fingerprint.c:115-119 | one more byte into ring, slot and hash |
| `Chunker.ChunksTile` | fingerprint.c:65-126 | for more than min bytes the lengths add up to n, each lies between min and max + min - 1, and there are at most n / min |
| `Chunker.CutsPrefix` | fingerprint.c:88-121 | two messages that agree up to the end of a chunk, with min bytes to go in both, are cut alike from any common scan position |
| `Chunker.ChunksPrefix` | fingerprint.c:72-121 | hence the chunks up to an end depend only on the bytes up to it |
| `CutRule.EndsAtFirst` | fingerprint.c:88-121 | a chunk ends at the first length, from the minimum on, at which the hash is magic, the maximum is reached or the message ends; a rest shorter than the minimum is absorbed; and the next scan has the slot this one leaves |
| `CutRule.FirstChunkHash` | fingerprint.c:79-120 | in the first chunk the value looked at is the polynomial of the last bytes read, the one before the minimum being passed over, modulo 2^mBits |
| `CutValues.ScansBegin` | fingerprint.c:106-110 | whatever slot it starts with, the scan of any chunk begins with a hash congruent to the polynomial of the bytes its window is filled with |
| `CutValues.ScanValue` | fingerprint.c:88-120 | the value looked at when any chunk has s bytes: the polynomial of the last bytes read, plus the error of the starting slot times a power of the base |
| `CutValues.ValueAtSlotZero` | fingerprint.c:88-120 | with slot 0, just the polynomial of the last bytes read of that chunk |
| `CutValues.ChunksAreTheRule` | fingerprint.c:48-127 | the chunk lengths are the only ones that add up to the message and end each chunk at the first length at which the low bits of that value are the magic ones, the maximum is reached or the message ends, a short rest being absorbed |
| `ChunkCounts.ZeroCount` | fingerprint.c:88-104 | a message of zeros longer than the minimum is cut into as many chunks as whole minimum chunks fit into it |
| `ChunkCounts.CountExact` | fingerprint.c:88-104 | all messages of a length have at most k chunks if and only if the length is below k + 1 minimum chunks, when zero is the cutting value |
| `ChunkCounts.FitsRequest` | net_dedup.h:102-137 | the chunks of all messages of a length fit the arrays of a request if and only if the length is below 4097 minimum chunks |
| `Tiling.ChunkInside` | net_dedup.c:855-866 | prefix sums place the chunks inside the message without overlap |
| `Wire.HeaderRoundTrip` | net_dedup.h:89-92 | the general header decodes to what was encoded |
| `Wire.HeaderLayout` | net_dedup.c:1349-1355 | byte 0 is 1 for a fingerprinted message and 0 otherwise, bytes 8 to 15 are the digits of the size, lowest first |
| `Wire.HeaderMeans` | net_dedup.c:1403-1425 | a received header is read so, whoever wrote it: fingerprinted exactly if byte 0 is not 0 |
| `Wire.FingerprintsRoundTrip` | fingerprint.h:32-35 | so does the array of packaged fingerprints |
| `Wire.FingerprintsLayout` | fingerprint.h:32-35 | record i has the size in its bytes 0 to 7 and the digest in bytes 8 to 39 |
| `Wire.IndicesRoundTrip` | net_dedup.c:1076-1088 | and the array of missing indices |
| `Wire.IndicesLayout` | net_dedup.h:107 | index i is the eight bytes from 8 i on |
| `Wire.CountMeans` | net_dedup.h:94-100 | a count is eight digits, lowest first |
| `SenderSteps.InsertStage` | net_dedup.c:896-949 | an outbound insert files a chunk under its own fingerprint |
| `SenderSteps.CountStage` | net_dedup.c:1032-1068 | the count of missing chunks arrives as asked, in any pieces; zero completes the send |
| `SenderSteps.IndicesStage` | net_dedup.c:1070-1112 | and so do their indices |
| `SenderSteps.ContentStage` | net_dedup.c:1114-1180 | any split of the reply puts on the wire the next bytes of the missing chunks in index order |
| `ReceiverSteps.PlainStage` | net_dedup.c:1441-1484 | a small message is written to the buffer at its offset, in any pieces |
| `ReceiverSteps.FpsStage` | net_dedup.c:1540-1578 | the fingerprints arrive as announced, in any pieces |
| `ReceiverSteps.HitStage` | net_dedup.c:1604-1629 | a chunk copied from the cache is the sender's chunk, in its place, and disturbs no other |
| `ReceiverSteps.MissStage` | net_dedup.c:1615-1620 | a missing chunk is noted with its index and its offset in the message |
| `ReceiverSteps.ContentStage` | net_dedup.c:1741-1813 | each byte of the reply lands at its original position, whatever the split |
| `ReceiverSteps.InsertStage` | net_dedup.c:1816-1859 | an inbound insert files a chunk under its own fingerprint |
| `ReceiverSteps.Complete` | net_dedup.c:1931-1939 | when all the missing chunks are in, the buffer holds the message |
| `Invariants.NextForward` | net_dedup.c:1393-1578 | the next bytes a receiver takes are the next ones of its own message |
| `Invariants.NextBackward` | net_dedup.c:1032-1112 | and those a sender takes are the next ones of the reply to its own message |
| `OnTheWire.HeaderPlaces` | net_dedup.c:714-804 | what is sent for a message begins with 1 or 0, as it is longer than the threshold or not, and its size; and goes on with the data itself if not |
| `OnTheWire.RecordPlaces` | net_dedup.c:951-1030 | otherwise with the number of chunks, and length and digest of each, 40 bytes apart |
| `OnTheWire.ContentPlaces` | net_dedup.c:1114-1180 | and then with the bytes of each chunk asked for, one behind the other |
| `OnTheWire.ReplyPlaces` | net_dedup.c:1659-1738 | the reply is the number of chunks asked for and their indices, eight bytes each |
| `OnTheWire.HeaderInFlight` | net_dedup.c:1393-1439 | in every run, where a receiver is about to take in a header, the bytes in flight begin with flag and size of its message |
| `Transparency.SenderBehind` | net_dedup.c:1032-1056 | until the request is fixed, the sender is not past waiting for it |
| `Transparency.AskNow` | net_dedup.c:1644-1655 | fixing the request changes nothing sent or received before |
| `Transparency.StepKeeps` | net_dedup.c:1188-1271 | every action of either side, and of other users of the caches, keeps the invariant |
| `Transparency.DedupIsTransparent` | net_dedup.c:1867-1951 | in every run, a lookup with its copy being one step, the buffer of each completed receive begins with the bytes of the send with the same number and is otherwise as it was |
| `Transparency.Framed` | net_dedup.c:1393-1578 | when as many receives as sends are complete, both streams are empty |
| `Transparency.CachesStaySound` | net_dedup.c:1836-1850 | both caches hold contents under their own fingerprints only |
| `Transparency.ReplyIndependentOfSplits` | net_dedup.c:1114-1180 | a completed send has put the header, the fingerprints and the missing chunks in index order on the wire, whatever the splits |
| `Reuse.BothLearn` | net_dedup.c:896-949 | unless it is refused an insert, each side has every chunk of the messages it has dealt with in its cache, under its fingerprint |
| `Reuse.OnlyNewIsAsked` | net_dedup.c:1581-1656 | unless the receiver is refused an insert, a chunk that is asked for was not in the receiver's cache at the start, nor is it a chunk of any earlier message |
| `Reuse.RepeatSendsNoContent` | net_dedup.c:1032-1068 | so for a message sent again nothing but its header and fingerprints crosses the wire, and the reply is eight zero bytes |
| `StageEffects.AsksForTheMissing` | net_dedup.c:1604-1629 | the lookups ask for a chunk exactly if the cache does not hold its fingerprint |
| `StageEffects.OutboundInserts` | net_dedup.c:896-949 | the stage inserts nothing with the flag set; otherwise the chunks in order up to the first that the free pages or an entry have no room for, and then sets the flag |
| `StageEffects.InboundInserts` | net_dedup.c:1816-1859 | the same for the chunks that came in |
| `Progress.NoDeadlock` | net_dedup.c:1191-1268 | unless all messages are through on both sides, one side can move |
| `Progress.MayMoveExact` | net_dedup.c:1191-1268 | in every reachable state a side can act exactly if it is not through and what it waits for is there: some bytes, or a whole header |
| `Progress.NoDeadlockBounded` | net_dedup.c:1191-1268 | and it can move within a bound on what each stream holds, for any bound that a header fits in |
| `Progress.SameMessageMoves` | net_dedup.c:1191-1268 | when both sides are at the same message, the next action of one of them is possible, or both are through |
| `Progress.HeadersWhole` | net_dedup.c:1400-1419 | a header in flight is there whole |
| `Progress.MoveCounts` | net_dedup.c:1870-1948 | every move lowers the measure of stages and bytes left, and nothing else changes it |
| `Progress.RunIsBounded` | net_dedup.c:1188-1271 | a run makes no more moves than the measure it starts with |
| `Progress.Completes` | net_dedup.c:1867-1951 | from the start at most twice the cost of the messages; and a run that cannot move any more has delivered them all |
| `DedupTransfer.CutOK` | net_dedup.c:836-866 | a message cut by the chunker is what the protocol theorems ask for |
| `DedupTransfer.DeliversLikePlainCopy` | net_dedup.c:1188-1271 | for any messages that fit the arrays of a request, as the chunker cuts them, any well-filed caches and any interleaving, each completed receive leaves what a plain copy would, and a run that cannot move has completed all |
| `DedupTransfer.ChunksFitEntries` | config.h:82-94 | a chunk needs one page less than an entry has room for, so an insert fails only for want of free pages, and then the cache is unchanged |
| `HeaderResume.HeaderSentIff` | net_dedup.c:724-740 | a header is sent intact for every content of memory exactly when one call sends all of it |
| `HeaderResume.HeaderReceivedIff` | net_dedup.c:1403-1419 | and received intact exactly when one call takes all of it |
| `RequestGate.PostRequest` | net_dedup.c:1308-1384 | refused while the descriptor is active or the ring locked; otherwise the request at the ring index is cleared and handed out, the index goes on by one around the ring, and the descriptor is marked; nothing else changes |
| `RequestGate.TestRequest` | net_dedup.c:2059-2114 | reports completion, of a request complete before too, and then clears the mark of the descriptor; nothing else changes |
| `RequestGate.Serve` | net_dedup.c:1296-2118 | any run of posts and tests on any communicators leaves the marks, rings and ring indices, and gives the answers, of the same run of the specification |
| `RequestGate.PostProtects` | net_dedup.c:1313-1334 | while the gate holds, no request of the ring is in progress when one is handed out, and the next to be handed out is the one after it |
| `RequestGate.GateStep` | net_dedup.c:2059-2114 | one call keeps the gate exactly unless it asks about a complete request while another one is in progress |
| `RequestGate.GateExact` | net_dedup.c:1296-2118 | over every run from the initial state the gate holds throughout if and only if no call does that, and then no request in progress is handed out again |
| `RequestGate.StaleRunLoses` | net_dedup.c:2096-2114 | a run of two requests in which a stale test leads to the loss of a request in progress |
| `GateTraces.RefusedExactly` | net_dedup.c:1308-1320 | over every run a post is refused exactly if the ring is locked or a request handed out on that communicator has not been reported done since |
| `GateTraces.DoneBetween` | net_dedup.c:1308-1384 | so between two requests handed out on a communicator one of it was reported done |
| `GateTraces.MarkIsTaken` | net_dedup.c:1384 | a descriptor is marked exactly while a request handed out on it, finished or not, has not been reported done |
| `GateTraces.DoneMeansComplete` | net_dedup.c:2096-2114 | a test is answered with done exactly if the request is complete afterwards, and otherwise changes nothing |
| `GateTraces.AnswersAreTheRule` | net_dedup.c:1296-2118 | the answers of every run, from the calls and the answers before: refusals as above, requests handed out in turn around the ring, done from the call that completes a request until it is handed out again; no other answers satisfy that |
| `SendRequests.DedupFingerprinting` | net_dedup.c:806-833 | writes length and fingerprint of each chunk, in order, within the 4096 elements of the array |
| `SendRequests.PrefixOffsets` | net_dedup.c:857-860 | writes the prefix sums of the lengths within the array of offsets |
| `SendRequests.SendRequest.constructor` | net_dedup.c:1334-1357 | a posted send is at its first stage |
| `SendRequests.SendRequest.SendHeader` | net_dedup.c:714-757 | the action of the machine in SEND_HEADER; the bytes put out are 1 or 0, as the data is longer than the threshold or not, padding, and the eight digits of its size; it goes no further only if its last call on the socket moved less than asked, and a willing socket makes it move |
| `SendRequests.SendRequest.SendRegData` | net_dedup.c:759-804 | the action in SEND_REG_DATA for as many bytes as the socket took; it goes no further only if its last call on the socket moved less than asked, and a willing socket makes it move |
| `SendRequests.SendRequest.ComputeFingerprints` | net_dedup.c:836-888 | the fingerprints are those of the message and the offsets its prefix sums |
| `SendRequests.SendRequest.InsertChunk` | net_dedup.c:926-940 | one insert, or the flag set when the cache refuses |
| `SendRequests.SendRequest.InsertOutbound` | net_dedup.c:896-949 | goes on exactly if the flag was set or the lock is free, after the inserts up to the first refusal, or none with the flag set |
| `SendRequests.SendRequest.SendFingerprintHeader` | net_dedup.c:951-991 | the action in SEND_FINGERPRINT_HEADER; it goes no further only if its last call on the socket moved less than asked, and a willing socket makes it move |
| `SendRequests.SendRequest.SendPackagedFingerprints` | net_dedup.c:993-1030 | the action in SEND_PACKAGED_FINGERPRINTS for the bytes taken; it goes no further only if its last call on the socket moved less than asked, and a willing socket makes it move |
| `SendRequests.SendRequest.RecvMissingFingerprintHeader` | net_dedup.c:1032-1068 | the action in RECV_MISSING_FINGERPRINT_HEADER for the bytes that came; it goes no further only if its last call on the socket moved less than asked, and a willing socket with bytes there makes it move |
| `SendRequests.SendRequest.RecvMissingFingerprints` | net_dedup.c:1070-1112 | the action in RECV_MISSING_FINGERPRINTS for the bytes that came, written within the array; it goes no further only if its last call on the socket moved less than asked, and a willing socket with bytes there makes it move |
| `SendRequests.SendRequest.SendPiece` | net_dedup.c:1141-1170 | one pass of the content loop: the bytes taken of the chunk, found through index and prefix sum; the loop is left only after a call that took less than asked |
| `SendRequests.SendRequest.SendMissingContent` | net_dedup.c:1114-1180 | the actions in SEND_MISSING_CONTENT, one for each call of send, up to a call that takes less than asked or to the end |
| `SendRequests.SendRequest.ProcessStage` | net_dedup.c:1192-1263 | one turn of the switch is a path of the machine, to a later stage, or waiting in the same one for the socket or for the lock |
| `SendRequests.SendRequest.ProcessSend` | net_dedup.c:1188-1271 | a call is a path of the machine and keeps what the next call relies on; it returns 1 exactly when the send is complete, and 0 only after a call on the socket that moved less than asked, or without the lock; with a willing socket and the lock free it acts whenever the machine can; the loop ends |
| `RecvRequests.RecvRequest.constructor` | net_dedup.c:1993-2007 | a posted receive is at its first stage |
| `RecvRequests.RecvRequest.RecvHeader` | net_dedup.c:1393-1439 | the action of the machine in RECV_HEADER; a fingerprinted message exactly if the first byte is not 0, of the size that bytes 8 to 15 say; it goes no further only if its last call on the socket moved less than asked, and a willing socket with bytes there makes it move |
| `RecvRequests.RecvRequest.RecvRegData` | net_dedup.c:1441-1484 | the action in RECV_REG_DATA for the bytes that came; it goes no further only if its last call on the socket moved less than asked, and a willing socket with bytes there makes it move |
| `RecvRequests.RecvRequest.RecvFingerprintHeader` | net_dedup.c:1487-1538 | the action in RECV_FINGERPRINT_HEADER; it goes no further only if its last call on the socket moved less than asked, and a willing socket with bytes there makes it move |
| `RecvRequests.RecvRequest.RecvPackagedFingerprints` | net_dedup.c:1540-1578 | the action in RECV_PACKAGED_FINGERPRINTS for the bytes that came, written within the array; it goes no further only if its last call on the socket moved less than asked, and a willing socket with bytes there makes it move |
| `RecvRequests.RecvRequest.LookupOne` | net_dedup.c:1604-1629 | one lookup: the chunk copied from the cache, or noted as missing with its slot |
| `RecvRequests.RecvRequest.NoteMissing` | net_dedup.c:1615-1620 | a missing chunk is noted with index and slot, within the two arrays |
| `RecvRequests.RecvRequest.PopulateFromNetCache` | net_dedup.c:1581-1656 | the lookups of all fingerprints, and then the request is fixed |
| `RecvRequests.RecvRequest.SendMissingFingerprintHeader` | net_dedup.c:1659-1695 | the action in SEND_MISSING_FINGERPRINT_HEADER for the bytes taken; it goes no further only if its last call on the socket moved less than asked, and a willing socket makes it move |
| `RecvRequests.RecvRequest.SendMissingFingerprints` | net_dedup.c:1698-1738 | the action in SEND_MISSING_FINGERPRINTS for the bytes taken; it goes no further only if its last call on the socket moved less than asked, and a willing socket makes it move |
| `RecvRequests.RecvRequest.RecvPiece` | net_dedup.c:1764-1802 | one pass of the content loop: the bytes that came, at slot plus offset; the loop is left only after a call that brought less than asked |
| `RecvRequests.RecvRequest.RecvMissingContent` | net_dedup.c:1741-1813 | the actions in RECV_MISSING_CONTENT, one for each call of recv, up to a call that brings less than asked or to the end |
| `RecvRequests.RecvRequest.InsertMissing` | net_dedup.c:1836-1850 | one insert of a chunk that was missing, or the flag set on refusal |
| `RecvRequests.RecvRequest.InsertInbound` | net_dedup.c:1816-1859 | goes on exactly if the flag was set or the lock is free, after the inserts up to the first refusal, or none with the flag set |
| `RecvRequests.RecvRequest.ProcessStage` | net_dedup.c:1871-1943 | one turn of the switch is a path of the machine, to a later stage, or waiting in the same one for the socket or for the lock |
| `RecvRequests.RecvRequest.ProcessRecv` | net_dedup.c:1867-1951 | a call is a path of the machine and keeps what the next call relies on; it returns 1 exactly when the receive is complete, and 0 only after a call on the socket that moved less than asked, or without the lock; with a willing socket and the lock free it acts whenever the machine can; the loop ends |
| `Refinement.SendContextHolds` | net_dedup.c:1188-1271 | in every reachable state of the connection a call of process_send finds what it relies on |
| `Refinement.RecvContextHolds` | net_dedup.c:1867-1951 | and so does a call of process_recv |
| `Refinement.SendPathRuns` | net_dedup.c:1188-1271 | what such a call does is a run of the joint system that moves the sender alone and lowers the measure by its number of actions |
| `Refinement.RecvPathRuns` | net_dedup.c:1867-1951 | and likewise for the receiver |
| `Endpoints.SendCall` | net_dedup.c:1188-1271 | in any reachable state a call of process_send leads to a reachable one and acts whenever the machine of the sender can |
| `Endpoints.RecvCall` | net_dedup.c:1867-1951 | and so does a call of process_recv |
| `Endpoints.BothTurns` | net_dedup.c:2065-2096 | one call of each at the same message: unless both requests are complete, the measure went down |
| `Endpoints.Finish` | net_dedup.c:1188-1271 | called in turn, the two loops come to an end, however the sockets split what they move: both requests complete, the message delivered, nothing in flight |
| `Endpoints.CopyMessage` | net_dedup.c:1296-2118 | from a posted send and receive to completion: the buffer begins with the data and is otherwise as it was, and both caches are fit for the next message |

## Left out

- SHA-256 and the other digests: a function parameter, with freedom from collisions stated as an assumption.
- The mixing arithmetic of `fingerprint_hash_func_64`: the hash is any function into the table.
- Connection setup and teardown, shared-memory mapping, environment variables, dump files, logging, statistics and `app_filled_size`: nothing the theorems speak of depends on them.
- Weak-memory effects and initialisation by several processes: steps are sequentially consistent and the memory of the index starts zeroed.
- `ConcurrentLookup`: a key, an entry and a page are each copied in one step, and one lookup at a time is followed; the bit vector is read slot by slot instead of word by word.
- PageCaches.PageCache.Insert: content of zero length and the all-zero fingerprint are excluded; no chunk is empty, and the index is written for keys that are not zero (fingerprint_table.c:136). A null `ret_entry` is not modelled, no caller passes one.
- RequestGate.TestRequest: the null request, for which `test` reports completion at once, is not modelled, and how far a call gets is a parameter.
- RequestGate.PostRequest: the failure of the dump file, after which `isend` returns an error, is not modelled.
- DedupTransfer.DeliversLikePlainCopy: messages whose chunks do not fit the arrays of a request are excluded; `ChunkCounts.FitsRequest` says which lengths have one. What the code does with them is not modelled.
- Endpoints.CopyMessage: one message on a fresh connection; any number of them, with either side ahead, is the subject of `DedupTransfer.DeliversLikePlainCopy`.
- Resumed headers inside the joint protocol: there the two headers move whole; what a resumed one does is the subject of `HeaderResume`.
- Connections that break: a call that returns 0 or -1 for good only stops the run.
- `net_device.c`, `net_dedup_coll.c`, `plugin_netdedup.c`: device enumeration, stubs and tables of functions.
- `nccl_internal_impl/` and `demo_apps/`: not part of the built plugin.

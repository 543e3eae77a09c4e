# ATFS: a verified model of a log-structured NVM file system

ATFS keeps files in one NVM region of 4096-byte pages. Each file has a log: a chain of
log pages holding 48-byte entries, and each entry owns a chain of 1 to 64 data pages
together with a 64-bit bitmap that marks the pages overwritten since. A write puts the
new bytes on fresh pages, appends entries, and publishes them by moving the log tail;
a garbage collector takes log pages out of the middle of the log, moves their live data
pages to new entries at the tail and frees the rest. Pages come from one global list
and 64 per-CPU lists threaded through the page headers.

The model follows these layers, and the top theorem goes through all of them: over any
run of creations, reads, writes, seeks, positioned reads and writes and collections on
any number of files, the region behaves like a collection of flat files of bytes with a
position, and collections are invisible (`FileSystems.FileSystem.Run`,
`FileSystems.CollectionsInvisible`).

| file | contents |
|---|---|
| `Chains.dfy` | chains of pages through `next_offset`: walks, cuts, joins, splices |
| `PageLists.dfy`, `Threads.dfy` | the allocator's lock-protected sections as state transitions, their invariant, and all interleavings of them |
| `Layout.dfy` | byte addresses, rounding to pages, the initial free chain |
| `Region.dfy` | class `Nvm`: the region, and `alloc_free_pages`, `free_pages` and the refill as loops over it |
| `LogModel.dfy` | entries, replay (the last covering entry wins), counters, live and dead runs, what collecting a page does |
| `LogStore.dfy`, `LogMeaning.dfy` | when the region holds a log, and what appending, marking, indexing and unlinking change |
| `WriteModel.dfy`, `Chunks.dfy`, `WriteSteps.dfy` | chunk arithmetic, page images, the write in progress |
| `GcSteps.dfy`, `GcTask.dfy` | the region while a log page is collected, and the walk over the log |
| `Laws.dfy` | what the calls promise one another: seeks, reads and writes in sequence, positioned and not |
| `FileSpec.dfy` | flat files, what each call does to them, and how index and pages represent them |
| `Inodes.dfy` | class `Inode`: log append, write, read, seek and collection |
| `EmptyWrites.dfy` | the region and the log during a write of no bytes as written |
| `FileSystem.dfy` | class `FileSystem`: several inodes, whole runs, page conservation |
| `Lists.dfy`, `Recency.dfy` | the circular list of `include/list.h` on the heap, and the order of the inode list |
| `Bitmap.dfy` | the 64-bit bitmap of an entry and the set of positions it marks |
| `Departures.dfy` | runs from initialisation on in which the code as written goes wrong |
| `CollectRun.dfy` | a run in which a collection frees pages |
| `EmptyRange.dfy` | a run in which the collector records an empty range |

## The two builds

Some places of the code depart from its evident intent. `AsWritten(wild)` is the code as
it stands; `wild` is what a header read through `OFFSET_NULL` yields. `Repaired` changes
exactly the places below. For each, a lemma says for all inputs when the code as written
meets the property, and another gives an input where it does not.

| place | as written | repaired | when right as written | where not |
|---|---|---|---|---|
| src/nvmio.c:314-331 | the tail of a last chunk of one page is not merged, and nothing is filled in where there is no old page | both are filled in, with zeros where there is no old page | `CleanWriteSplices` | `SecondWriteExposesStale`, `OneByteOverwriteDropsTheRest` |
| src/nvmio.c:239, src/atfsrw.c:177-185, src/atfsrw.c:296-306 | a write of no bytes inside a page takes a page, writes nothing to it, publishes it and grows the file up to the file position; at a page boundary the page count underflows | `atfswrite` and `atfspwrite` change nothing but the order of the list when there are no bytes | `NothingKeepsFileExact`, `NothingKeepsTailExact`; both never, `NothingNeverHarmless` | `Departures.GrowsByNothing`, `ZeroLengthPages` |
| src/gc.c:72-81 | moved pages keep naming the collected entry | they name the new one | `Inode.StartGcTask` with `NothingMovedIff` | `Departures.StaleWord` |
| src/allocator.c:43-46 | the refill reads through `OFFSET_NULL` when the local list holds one page | the list ends there | `RefillExact` | `RefillExample` |
| src/allocator.c:107-113 | `free_pages` reads and writes through the head of an empty list | the chain becomes the list | `PushExact` | `PushExample` |
| src/allocator.c:88-116 | `free_pages` never raises `count` | it does | `AsWrittenCounts` | `CountExample` |
| src/inode.c:18-21 | the first log page keeps old counters | they are cleared | `Inode.InitInode` | `Departures.UsedFirstPage` |
| src/atfsrw.c:305 | `atfspwrite` sets the size from the file position | from the offset | `PwriteSizeExact` | `PwriteSizeExample` |

The allocator as written is stated section by section, in `PageLists` and over all
interleavings in `Threads`. The methods of the file layer that take a build,
`NvmioWrite`, `StartGcTask` and `InitInode` among them, always allocate and free through
the repaired allocator: what they say of the code as written is about their own
statements. In the runs of `FileSystem.Run` the build is that of the writes; creation and
collection are repaired.

These are kept in both builds: a failed read moves the position (src/atfsrw.c:150-151);
`end_write_off` is low by `offset` in an unaligned first chunk (src/nvmio.c:338-339), with
`PieceRangeExact` saying when a collected run then records an empty range and
`EmptyRangeExample` a case and `EmptyRangeRun` a run that reaches it; the refill does not check that the global list is long enough
(src/allocator.c:34-37), so operations return `ok == false` exactly where the code would
walk off its end: the global list then holds fewer than 512 pages, and some CPU's list
fewer than were asked of it, one for a log page and at most 64 for data (`Nvm.Short`).

The end-of-file test of `nvmio_read` and its walk are in unsigned 64-bit arithmetic, as is
`lseek`; the flat specification has the same arithmetic, and `ReadIsSlice` gives the
ordinary reading of it.

`update_radixtree` is called at src/nvmio.c:353 and has no body, and the functions of the
B+ tree are only declared. The index is a map from file page to NVM page; the update is
inferred to replay the new entries: for each page they cover, `invalidate_old_log_entry`
on the entry that the old page's `log_entry` names, then the new page.

## Model

| member | source | states |
|---|---|---|
| FileSystems.FileSystem.Run | src/atfsrw.c:125-312 | over any run of calls, interleaved with collections, region and inodes give the files, the recency order and every answer of the flat specification, and the files and answers of the run without its collections; with the writes as written the same holds if each is clean where it comes; a run stops only where a refill finds fewer than 512 pages on the global list, and completes whenever the list holds at the start what `RunCost`, a function of the flat specification, adds up over its calls; between any two calls the logs change as the call says: a write changes its inode's, each collection compacts that of the inode last used longest ago |
| FileSystems.FileSystem.CallOn | src/atfsrw.c:143-152 | one call on one inode: its file changes as specified, every other file is untouched, the inode moves to the front of the list unless the call is a seek; it succeeds whenever the global list holds 1024 pages per 64 pages written; no other log changes |
| FileSystems.FileSystem.Collect | src/gc.c:137-172 | a collection compacts the log of the last inode of the list, its surviving pages and then the moved runs (`Compacted`), moves that inode to the front and changes no file and no other log; it completes whenever the global list holds 512 pages per page of that file |
| CollectRun.CollectionFrees | src/gc.c:128-177 | a run from initialisation: page 0 written 85 times, page 1 once, one collection; the log is the tail page with the one live page behind its own, and the other log page and its 84 overwritten data pages are free |
| FileSystems.FileSystem.Create | src/atfsrw.c:57-68 | creation adds an empty file at position 0 and puts it at the front of the list, and succeeds whenever the global list holds 512 pages |
| FileSystems.CollectionsInvisible | src/gc.c:128-177 | in the flat specification, leaving all collections out of a run changes no file and no answer; `FileSystem.Run` states it of the region |
| FileSystems.RunKeepsRecency | src/atfsrw.c:177-179 | after any run of calls the list holds every inode in decreasing time of last use, where the time comes from the calls alone: the index of the last read, write or creation of it, or collection that took it as the one with the oldest time |
| FileSystems.DataCallIsUse | src/atfsrw.c:143-145 | each of read, write, `pread` and `pwrite` is a use of its inode at its own time and brings it to the front |
| FileSystems.LastIsLeastRecent | src/gc.c:142-145 | so what a collection takes after any run, the last of the list, is the inode whose time of last use is oldest |
| FileSystems.OtherStays | src/nvmio.c:205-357 | a call on one inode leaves the log, index and bytes of every other inode as they were |
| FileSystems.EveryPageOnce | src/allocator.c:19-116 | the 65 page lists, the log chains and the chains of the entries together hold every page exactly once |
| FileSystems.PlaceUnique | src/gc.c:52-113 | no page is in two places: not on two lists, in two chains, or twice in one |
| FileSystems.PlaceExists | src/allocator.c:56-116 | no page is lost: each is on a list, in a log chain or in an entry's chain |
| FileSystems.FileSystem.PagesOnce | src/allocator.c:56-116 | between any two calls of a run every page of the region is in exactly one place |
| FileSpec.WriteSplices | src/nvmio.c:242-347 | repaired, a write of any positive length at any offset makes the file the old one with the buffer spliced in, gaps reading zero |
| FileSpec.CleanWriteSplices | src/nvmio.c:313-331 | the exact condition, on offset, length and mapped pages: as written, a write makes the splice and leaves zeros behind the end, whatever the fresh pages hold, if and only if it is clean |
| FileSpec.AsWrittenSplices | src/nvmio.c:313-331 | as written, on given fresh pages, the file is the splice if and only if they held the right byte at every position the write drops, and zeros follow it too if and only if they did at every position it leaves stale |
| FileSpec.AsWrittenClean | src/nvmio.c:313-331 | a clean write as written is the splice and leaves zeros behind the end, so the next one starts from the flat file again |
| FileSpec.AsWrittenSafe | src/nvmio.c:313-331 | a write that passes the weaker test is the splice, but may leave stale bytes behind the end |
| FileSpec.SecondWriteExposesStale | src/nvmio.c:313-331 | one byte at 0 and one at 2 of an empty file, on pages full of sevens: both pass the weaker test and the file is 1, 7, 1 |
| FileSpec.SpliceAt | src/nvmio.c:284-311 | a splice has the larger of the two lengths, the buffer inside the written range and the old byte everywhere else |
| FileSpec.ReadIsSlice | src/nvmio.c:374-378 | below 2^64 a read succeeds exactly when it ends inside the file and returns that slice |
| FileSpec.WriteSeekRead | src/atfsrw.c:211-226 | writing, seeking back and reading as much returns what was written |
| Laws.TellAnswersPosition | src/atfsrw.c:210-227 | `lseek` by 0 from the position answers the position and changes nothing |
| Laws.SeekFromStart | src/atfsrw.c:210-227 | from the start it goes to the offset and answers it; a negative one is kept as a 64-bit word |
| Laws.SeeksAddUp | src/atfsrw.c:210-227 | two relative seeks are one by the sum, for all offsets, and inside the range the position moves by just the offset |
| Laws.SeekEndAppends | src/atfsrw.c:210-227 | a seek to the end answers the length, and a write there appends its buffer |
| Laws.SeekFromEnd | src/atfsrw.c:210-227 | a seek from the end is a relative one from the position of the end |
| Laws.OtherOrigin | src/atfsrw.c:210-227 | any origin but 0, 1 and 2 answers 22 and leaves the file |
| Laws.ReadMoves | src/atfsrw.c:149-152 | a read answers the bytes at the position or, past the end, -1, and moves the position in both cases |
| Laws.ReadsFollow | src/atfsrw.c:149-152 | two reads inside the file answer consecutive parts and together what one read answers |
| Laws.ReadWraps | src/nvmio.c:374-410 | a read whose end wraps at 2^64 is tested with what is left of it; up to there it reads the file and zeros behind its end, and then goes on at the start of the file |
| Laws.PreadIsSlice | src/atfsrw.c:267-269 | `pread` answers the bytes at its offset wherever the position is, or -1 past the end, and keeps the position |
| Laws.PreadIsSeekRead | src/atfsrw.c:267-269 | it answers what a seek there and a read answer |
| Laws.WritesFollow | src/atfsrw.c:182-185 | two writes are one of both buffers, and each answers its number of bytes |
| Laws.PwriteIsSeekWrite | src/atfsrw.c:303-306 | `pwrite` is a seek to its offset, a write and a seek back, and answers the number of bytes |
| Laws.PwritePread | src/atfsrw.c:267-306 | after a `pwrite` a `pread` there gives the buffer, and one beside it what it gave before |
| FileSpec.PwriteSizeExact | src/atfsrw.c:304-305 | as written, `atfspwrite` leaves the right size if and only if position plus count, as a 64-bit word, is the end of the write or both lie within the old file |
| FileSpec.PwriteSizeExample | src/atfsrw.c:304-305 | one byte at offset 4096 of an empty file with position 0 gives size 1 |
| FileSpec.ReadByte | src/nvmio.c:383-410 | inside one round of the read loop the copied byte is the file's byte, also where the file offset wraps |
| FileSpec.ReadOn | src/nvmio.c:393-410 | each round reads at least one byte, stays in its page and hands on the right page and offset |
| WriteModel.RepairedSplices | src/nvmio.c:284-331 | repaired, every byte of the file after a write is the buffer's in range and the old one elsewhere |
| WriteModel.AsWrittenByte | src/nvmio.c:313-331 | as written, byte for byte, behind the end of the file too: right if and only if it is not left stale or the stale byte happens to equal it |
| WriteModel.CleanWriteExact | src/nvmio.c:313-331 | a test on offset, length and mapped pages, before the call, that fails on exactly the writes that leave a byte of a touched page stale |
| WriteModel.SafeWriteExact | src/nvmio.c:313-331 | the weaker test, with the size, that fails on exactly the writes that drop a byte of the file they make |
| WriteModel.CleanIsSafe | src/nvmio.c:313-331 | a write is clean if and only if it passes the weaker test and leaves nothing stale behind the end |
| WriteModel.OneByteOverwriteDropsTheRest | src/nvmio.c:260-263 | writing one byte at the start of a mapped page drops the other 4095 as written |
| WriteModel.ZeroLengthPages | src/nvmio.c:239 | a write of no bytes asks for one page anywhere inside a page and for 2^52, more than there are, at a page boundary |
| WriteModel.ZeroLengthChunk | src/nvmio.c:243-275 | inside a page its only chunk copies and merges nothing; at a page boundary its first chunk copies 63 pages the buffer does not have |
| FileSpec.NothingKeepsFileExact | src/nvmio.c:165-174 | as written, a write of no bytes inside file page `fp` leaves the file what it was, whatever the page it takes holds, if and only if the position is not past the end and the end is not past the start of that page |
| FileSpec.NothingKeepsTailExact | src/nvmio.c:165-174 | and it leaves only zeros behind the end if and only if the page ends at or before the end of the file it makes |
| FileSpec.NothingNeverHarmless | src/nvmio.c:239 | so it never does both |
| FileSpec.WriteNothingNeverSafe | src/atfsrw.c:183-184 | and `atfswrite`, where the page is that of the position, never even leaves the file |
| Inodes.Inode.WriteNothing | src/nvmio.c:236-353 | a write of no bytes inside a page publishes an entry, and the index maps the file page to a page that was free and that nothing was written to; log, bitmaps and counters stay right, the entry words exactly if that page's word happened to name the new entry |
| Inodes.Inode.AtfsWriteNothing | src/atfsrw.c:182-185 | the call: the file is then the bytes of the new index up to the larger of size and position; it completes whenever the global list holds 1024 pages |
| Inodes.Inode.AtfsPwriteNothing | src/atfsrw.c:303-306 | the same at an offset, where the size still goes by the file position |
| Departures.GrowsByNothing | src/atfsrw.c:182-185 | an empty file, a seek to 100, a write of no bytes: the file has 100 bytes |
| WriteModel.ChunkExact | src/nvmio.c:243-275 | first, middle and last parts add up to the chunk, fill exactly its pages, and pages and bytes run out together |
| WriteModel.LoopNext | src/nvmio.c:343-346 | the loop variables stay in step across chunks: the next byte is where the next page starts |
| WriteModel.LoopEnd | src/nvmio.c:242-347 | when no pages are left all bytes are written and exactly the touched file pages were visited |
| WriteModel.EntriesOfWrite | src/nvmio.c:242-247 | a write makes one entry for each 64 pages it touches, the last for fewer, and 1024 pages of the global list for each are enough |
| WriteModel.ImageIsFilled | src/nvmio.c:284-331 | copying the user bytes and then merging head and tail gives old head, buffer part, old tail |
| WriteModel.ImageAt | src/nvmio.c:284-331 | each byte of a written page: old page before the range, buffer inside, old page behind |
| WriteModel.ChunkRecorded | src/nvmio.c:333-341 | an entry records where its pages begin, as its end that plus the number of bytes written to them, and the file size once they are written |
| WriteModel.EmptyRangeExample | src/gc.c:75-78 | two bytes written at 4095 and page 0 overwritten: the live run left records a range from 4096 to 2 |
| EmptyRange.EmptyRangeRun | src/gc.c:72-81 | a run from initialisation: two bytes at 4095, page 0 written 84 times, page 2 once, one collection; the log has an entry whose range is from 4096 to 2 |
| WriteModel.WroteByte | src/nvmio.c:284-353 | in both builds each byte of the file after a write: the buffer in range, what the page was completed with beside it, the old byte elsewhere |
| WriteModel.ChunkHi | src/nvmio.c:255-275 | where the written part of each page of a chunk ends, from the chunk's split alone |
| WriteModel.ChunkMerges | src/nvmio.c:260-275 | the last page is merged as written exactly when the chunk has a separate last copy |
| Chunks.SidesComplete | src/nvmio.c:313-331 | after the copies and the two merges every page of the chunk is the image of its file page, no other page has changed |
| Inodes.Inode.NvmioWrite | src/nvmio.c:205-357 | in both builds a completed write appends one entry per 64 pages, keeps log, index, bitmaps, counters and entry words consistent and gives every touched page its image and every new entry its record; an incomplete one leaves tail, index and every page in use unchanged; it completes whenever the global list holds 1024 pages per entry |
| Inodes.Inode.WriteChunks | src/nvmio.c:236-347 | the loop up to the commit point, on every way out: the published log is a prefix of the log and pages in use are unchanged |
| Inodes.Inode.WriteChunk | src/nvmio.c:242-341 | one chunk: a fresh chain of exactly its pages with their images, one new entry recording it |
| Inodes.Inode.CopyData | src/nvmio.c:283-311 | the three copies put each user byte on its page, set the entry word of each page of the chain and end on the last page |
| Inodes.Inode.CopyMiddle | src/nvmio.c:294-302 | the middle loop writes whole pages and advances buffer and page together |
| Inodes.Inode.FillSides | src/nvmio.c:313-331 | the merges use the pages the index gave before the write and leave each page the image of its file page |
| Inodes.Inode.UpdateIndex | src/nvmio.c:349-353 | inferred replay: walks exactly the new entries, indexes each of their pages once, and marks each page it replaces in the entry that owns it |
| Inodes.Inode.InvalidateOldLogEntry | src/nvmio.c:187-201 | marks exactly the position of the file page and keeps the log page's counters equal to what its entries say |
| Inodes.Inode.GetLogEntry | src/nvmio.c:105-135 | hands out the slot at the tail, chaining a fresh page with cleared counters exactly when the last is full, and touches no page in use but the log's last |
| Inodes.Inode.InitLogEntry | src/nvmio.c:137-155 | the log gains that entry at its end, `pages_cnt` grows by its pages, nothing else changes |
| Inodes.Inode.NvmioRead | src/nvmio.c:359-415 | returns the flat file's bytes, holes as zeros, or -1 exactly where the specification fails |
| Inodes.Inode.AtfsRead | src/atfsrw.c:149-152 | the answer of the flat file; the position moves on whether or not the read succeeds |
| Inodes.Inode.AtfsWrite | src/atfsrw.c:182-185 | repaired, and as written if the write is clean: the buffer is spliced in at the position, the position moves behind it, the size grows to it; out of pages the file is what it was |
| Inodes.Inode.AtfsPwrite | src/atfsrw.c:303-306 | splice at the offset with the position kept: repaired always, as written if the write is clean and passes the test of `PwriteSizeExact` |
| Inodes.Inode.AtfsPread | src/atfsrw.c:267-269 | the answer of the flat file, position kept |
| Inodes.Inode.AtfsLseek | src/atfsrw.c:210-227 | the three origins with 64-bit wrap-around, `EINVAL` and no change for any other |
| Inodes.Inode.Perform | src/atfsrw.c:125-312 | every call refines its step on the flat file and disturbs no other inode's pages |
| Inodes.Inode.InitInode | src/inode.c:8-29 | an empty file at position 0; as written the inode is in order if and only if the header of the page the CPU hands out first, known before the call, holds zero counters |
| Departures.UsedFirstPage | src/inode.c:18-21 | a run from initialisation: after the collection of `StaleWord` the pages before the collected log page are taken, and the inode created then gets it as its first log page with the counters of 85 entries and is not in order |
| WriteSteps.BeforeCommit | src/nvmio.c:236-351 | as long as pages in use are kept and the log is only extended, with or without a slot handed out, the walk from the head to the published tail finds the old log entry for entry, and its replay gives the old index over unchanged bytes |
| WriteSteps.InsideChunk | src/nvmio.c:249-341 | that covers the states between iterations and, inside one, those with the pages allocated, with the slot handed out and with the pages filled |
| WriteSteps.BitIffLaterWrite | src/nvmio.c:187-201 | in every stored log a bit is set if and only if a later entry covers that file page |
| WriteSteps.WritingStep | src/nvmio.c:242-347 | each iteration extends the log by one entry whose pages continue the written range, keeping marks, entry words and page accounting |
| WriteSteps.ReplayStart | src/nvmio.c:349-353 | at the commit point the old tail is where the new entries begin and none of them is indexed |
| WriteSteps.WriteDone | src/nvmio.c:351-353 | after the replay the index is the replay of the whole log again and all invariants hold |
| WriteSteps.WriteWrote | src/nvmio.c:284-353 | the new index maps every touched file page to its image and every other one as before |
| WriteSteps.AppendSizeOk | src/nvmio.c:333-341 | the last entry of the log carries the file size after a chunk |
| LogModel.CollectKeepsReplay | src/gc.c:47-115 | collecting any page, with its live runs moved from mid-log to the end, leaves the last-writer-wins replay unchanged |
| LogModel.BlockCover | src/gc.c:52-82 | what the moved runs of a page cover is what the index already says, and every live page is covered |
| LogModel.RunsCover | src/gc.c:54-82 | the live runs of an entry map exactly its live file pages, to the same pages |
| LogModel.RunsMaximal | src/gc.c:60-68 | each live run is maximal: what is before and behind it in the entry is overwritten |
| LogModel.MovedOnIffCovered | src/nvmio.c:187-201 | the index has moved on from a page if and only if a later span covers its file page |
| LogModel.CoverConcat | src/gc.c:47-115 | in a replay later spans win over earlier ones |
| LogModel.EntryPartition | src/gc.c:52-107 | every page of an entry ends up exactly once in a new entry or on the free chain |
| LogModel.BlockPartition | src/gc.c:52-107 | the same for all entries of a log page together |
| LogModel.BlockFreedLength | src/gc.c:85-113 | the free chain has exactly as many pages as the header's `invalid_pages` says |
| LogModel.CollectableHasInvalid | src/gc.c:156-157 | a page the trigger picks has at least one overwritten data page, so the free chain is never empty |
| LogModel.NothingMoves | src/gc.c:54-82 | a collection moves nothing if and only if the header counts every data page as overwritten |
| LogModel.PieceRangeExact | src/gc.c:75-78 | when a live run that reaches the end of an unaligned entry records an end above its start |
| LogModel.PieceRange | src/gc.c:72-81 | every moved run records its own first page, number of pages and start, and one that ends before the entry does, its exact end |
| LogModel.CountersInvalidate | src/nvmio.c:193-200 | one more marked position raises exactly the counters it should |
| LogModel.CountersBound | src/nvmio.c:187-201 | `invalid_pages` never exceeds `pages_cnt`, with equality exactly when every entry is fully overwritten |
| Inodes.Inode.StartGcTask | src/gc.c:150-172 | in both builds the walk terminates, never takes the tail page, leaves the surviving pages in order with the moved runs behind them, entry for entry, and keeps chains, bitmaps, counters and the replay, with index and page bytes untouched; repaired it keeps the entry words too, as written if and only if nothing was moved; the last page taken is then free near the front of a list with its counters and records; the pages taken are those with more than half of their entries or of their data pages overwritten |
| GcTask.LeavesIff | src/gc.c:155-171 | a page before the tail page is in the front of the new log if and only if at most half of its entries are overwritten entirely and at most half of its data pages are; the old tail page follows |
| LogModel.CountersMean | src/gc.c:156-157 | the header of a log page counts its entries, those overwritten entirely, its data pages and the overwritten ones, each as the size of a set |
| LogModel.CollectableIff | src/gc.c:156-157 | the collector's test on the header holds if and only if more than half of the entries, or more than half of the data pages, are overwritten |
| GcTask.OnePageEntries | src/gc.c:156-157 | of 85 entries of one page each it takes 43 overwritten, not 42 |
| GcTask.TwoPageEntries | src/gc.c:156-157 | of 85 entries of two pages each, one page of each overwritten, it takes one entry overwritten entirely, not none |
| Inodes.Inode.CollectPage | src/gc.c:158-166 | unlinking head or middle page and collecting it keeps the chain and the replay |
| Inodes.Inode.GcLogBlock | src/gc.c:20-120 | appends exactly the maximal live runs in order, frees the page and its dead data pages, in both builds; as written, entry words that were right stay right if and only if the header counted every data page as overwritten |
| Inodes.Inode.GcEntry | src/gc.c:52-107 | splits one entry into its maximal live and dead runs, cutting its chain in place |
| Inodes.Inode.FindRunEnd | src/gc.c:60-68 | the inner walk ends at the end of the maximal run with the run's last page in hand |
| Inodes.Inode.AppendRun | src/gc.c:72-81 | a live run becomes a new entry at the tail with the file's size and its own range |
| Inodes.Inode.FreeRun | src/gc.c:98-105 | the dead run is spliced in behind the head of the free chain |
| GcTask.NothingMovedIff | src/gc.c:154-172 | the walk moves nothing if and only if the header of every page it takes counts all its data pages as overwritten |
| GcTask.MovedBound | src/gc.c:54-82 | a collection appends at most one entry per mapped file page |
| GcSteps.WordsStay | src/gc.c:72-81 | as written, the index leads to every moved page and its entry word to an entry of the collected log page, which is free by then |
| Departures.StaleWord | src/gc.c:72-81 | page 0 written 85 times, page 1 once, one collection: the entry words are wrong, and that of file page 0 names the collected log page, which is near the front of a free list with the counters and the records it had |
| Departures.MarksFreePage | src/nvmio.c:187-201 | the mark that the next overwrite of file page 0 makes through that word sets a bit and raises the counters in a page that is on a free list |
| Departures.FullPage | src/nvmio.c:105-135 | those writes, clean ones as written, succeed and leave 86 entries, the first 85 for page 0 |
| Departures.OneLivePicked | src/gc.c:156-157 | a full log page with 84 entries overwritten is picked and its one live page moved |
| Departures.StaleAfter | src/gc.c:150-172 | after the collection the log is the tail page with the moved page behind, and the collected page is free |
| GcTask.TaskCollect | src/gc.c:155-166 | one collected page: survivors so far, pages to come and moved runs still make up the log |
| GcTask.CollectStart | src/gc.c:158-166 | unlinking hands the page, its entries and data pages to the collection with nothing lost |
| GcTask.CollectEnd | src/gc.c:108-115 | after the page is collected all invariants of the inode hold with the same index |
| GcSteps.GcCutStep | src/gc.c:69-70 | cutting the chain leaves two chains and disturbs nothing else |
| GcSteps.GcFreeStep | src/gc.c:98-105 | the spliced run is accounted for on the free chain |
| GcSteps.GcMeansStep | src/gc.c:72-81 | an appended run keeps the bitmaps right; as written it breaks the entry words |
| LogStore.OpenPage | src/nvmio.c:111-123 | chaining a fresh page to a full log keeps the log's shape |
| LogStore.FillSlot | src/nvmio.c:137-155 | filling in a slot gives the log with the entry appended, counters included |
| LogStore.MarkSlot | src/nvmio.c:187-201 | marking a position gives the log with that bit set, counters included |
| LogStore.Unlink | src/gc.c:158-165 | the chain without the page is the log without it, and its entries keep their chains |
| LogMeaning.InstallOver | src/nvmio.c:187-201 | marking the old entry when the index moves on keeps every bitmap of the log exact |
| LogMeaning.ReplayFinds | src/nvmio.c:287 | the entry word of a mapped page leads to the entry that owns it |
| LogMeaning.PageUnique | src/nvmio.c:249 | a data page is at one position of one entry |
| LogMeaning.WalkPage | src/nvmio.c:176-185 | `next_log_page` leads from a full page to the next page of the log |
| Region.Nvm.FillLocalPageList | src/allocator.c:19-54 | the loop and the splice are the refill transition, in both builds; it fails exactly where the walk leaves the list |
| Region.Nvm.FreePages | src/allocator.c:88-116 | the walk and the splice are the push transition, on the list of the CPU it runs on if that held at most 512 pages, else on the global list |
| Region.Nvm.AllocPages | src/allocator.c:56-86 | a chain of exactly `n` pages that were free, all other pages in use untouched; it succeeds whenever the global list holds 512 pages |
| Region.Nvm.ReleasePages | src/allocator.c:88-116 | the pages of the chain become free, all other pages keep their owner |
| PageLists.RefillKeeps | src/allocator.c:30-51 | a refill moves the first pages of the global list to a local one and keeps all lists acyclic, disjoint and counted |
| PageLists.RefillExact | src/allocator.c:40-47 | as written, exactly when the refill gives that list: unless the local list held one page |
| Threads.RefillExample | src/allocator.c:40-47 | after one refill and 511 pages taken the list holds one page, and the next refill loses the list |
| PageLists.PopKeeps | src/allocator.c:71-79 | a pop hands over a chain of `n` pages and keeps the invariant |
| PageLists.PushKeeps | src/allocator.c:103-113 | a push puts the chain on the list and keeps the invariant |
| PageLists.PushExact | src/allocator.c:107-111 | as written, exactly when the push puts its chain on the list: when the list was not empty |
| Threads.PushExample | src/allocator.c:107-111 | a page taken on one CPU and freed on another with an empty list is lost |
| PageLists.EachPageOnce | src/allocator.c:19-116 | a page is on the list that owns it, once, and on no other |
| Threads.AfterAnyRunEachPageOnce | src/allocator.c:30-113 | after any interleaving of sections by any threads on any CPUs every page has one owner and is on at most one list, once |
| Threads.StepLeavesOthersAlone | src/allocator.c:66-81 | no section of another thread takes a page from a thread, gives it one, or rewrites a link of its pages |
| Threads.RunLeavesOthersAlone | src/allocator.c:30-113 | the same over whole runs of other threads |
| Threads.TakeIsExclusive | src/allocator.c:66-85 | a page taken was on the list before and belongs to the taker alone afterwards |
| Threads.RepairedCounts | src/allocator.c:30-113 | repaired, every `count` is its list's length after any run |
| Threads.AsWrittenCounts | src/allocator.c:88-116 | as written, `count` is the length after a run if and only if the run gave that list no page |
| Threads.CountExample | src/allocator.c:88-116 | one page taken and freed: 512 pages on the list, count 511 |
| Layout.TailRoundsToOwnPage | src/nvmio.c:92-99 | every entry and every tail, also the one behind the last entry, rounds to its own page |
| Layout.LastEntryIffFull | src/nvmio.c:85-90 | `is_last_entry` holds exactly behind 85 entries |
| Layout.EntriesDisjoint | src/nvmio.c:127-132 | entries lie inside their page and never overlap |
| Layout.PagesFit | include/internal.h:31-36 | pages with their headers are disjoint, above the reserved area, inside the 16 GB region, and no more would fit |
| Format.Headers.BuildGlobalList | src/super.c:45-58 | the loop writes every page's own offset and the link to the page below it |
| Format.LinksDecode | src/super.c:46-56 | read as page numbers, those links are the descending chain |
| Format.FormattedOk | src/super.c:44-58 | the initial chain visits every page exactly once and the allocator's invariant holds at the start |
| Lists.ListAdd | include/list.h:113-116 | cons behind the head, all other nodes unchanged |
| Lists.ListAddTail | include/list.h:122-125 | append, all other nodes unchanged |
| Lists.ListDel | include/list.h:135-139 | removes the node and clears its two pointers |
| Lists.ListDelInit | include/list.h:146-149 | removes the node and leaves it a ring of its own |
| Lists.ListMove | include/list.h:157-160 | moves the node to the front |
| Lists.ListMoveTail | include/list.h:168-172 | moves the node to the end |
| Lists.ListEmpty | include/list.h:180-182 | true exactly for the ring of the head alone |
| Lists.ListSplice | include/list.h:203-206 | concatenates in front, for lists of any length |
| Lists.ListSpliceInit | include/list.h:225-231 | the same, and the source is a ring of its own afterwards |
| Lists.ListSpliceTail | include/list.h:214-217 | concatenates at the end |
| Lists.ListSpliceTailInit | include/list.h:239-245 | the same, and the source is a ring of its own afterwards |
| Lists.TakeOldest | src/gc.c:138-145 | returns the last inode and rotates it to the front |
| Lists.RotateRing | include/list.h:106-134 | a ring read from any of its nodes is a ring |
| Recency.FullRound | src/gc.c:142-145 | as many collections as inodes, with no access in between, take each inode once, least recent first, and restore the order |
| Recency.FrontIsNewest | src/atfsrw.c:177-179 | moving the inode used now to the front keeps the list in order of last use |
| Bitmap.MarkAdds | src/nvmio.c:193 | setting a bit of an entry's word adds exactly that position to the set the proofs speak of |
| Bitmap.MarkedMark | src/gc.c:16-18 | a bit tests as set after a store if and only if it was stored or set before |

## Left out

- The B+ tree: the index is a map from file page to NVM page; the tree has no code in the repository.
- Inodes.Inode.UpdateIndex: its source has no body; the replay is inferred from the call and from `invalidate_old_log_entry`.
- Inodes.Inode.StartGcTask: as written it still allocates and frees through the repaired allocator. After a walk as written that moved something, the next overwrite of a moved page marks a freed page (`Departures.MarksFreePage`); writes after such a walk are not modelled further.
- Departures.MarksFreePage: the mark alone; the pages the write takes before it are left out, and if one of them is the freed page the mark goes into that.
- Inodes.Inode.GcLogBlock: as written it, too, allocates and frees through the repaired allocator.
- Inodes.Inode.NvmioWrite: writes of at least one byte that end below 2^64; an entry that crosses 2^64 records a first page that has wrapped, and what the index then holds is up to `update_radixtree`, which has no body; a write of no bytes as written is `Inodes.Inode.WriteNothing`. Where the code would use pages it did not get (src/nvmio.c:250, src/nvmio.c:278) it returns `ok == false`, and nothing is claimed about the use of the inode after that but what its contract says.
- Inodes.Inode.WriteChunks: the same two limits as `Inodes.Inode.NvmioWrite`.
- Inodes.Inode.AtfsWrite: ends below 2^64; empty buffers in the repaired build only.
- Inodes.Inode.AtfsPwrite: ends below 2^64; empty buffers in the repaired build only.
- Inodes.Inode.WriteNothing: inside a page; at a page boundary, where the code asks for more pages than there are, it is not modelled beyond the page count and the first chunk (`ZeroLengthPages`, `ZeroLengthChunk`).
- WriteSteps.InsideChunk: the single stores between these states, such as the link to a fresh log page before its counters are cleared, are not states of the model.
- Region.Nvm.AllocPages: for the repaired build; what the code as written does is stated section by section in `PageLists` and `Threads`.
- Region.Nvm.ReleasePages: for the repaired build, as `Region.Nvm.AllocPages`.
- Region.Nvm.FreePages: as written, on an empty list the code also stores to the word it takes for the head's link; that store lands outside the page headers and is not modelled.
- PageLists.PushExact: without that store.
- Threads.AsWrittenCounts: for runs in which every section leaves its list a list; the sections that do not are the subject of `RefillExact` and `PushExact`.
- FileSystems.FileSystem.Run: calls are atomic, one after the other, as the inode mutex makes them on one inode; calls on different inodes interleave in the code at the allocator's sections, which `Threads` covers for the allocator alone.
- Region.Nvm: the header words, page bytes and entries are sequences indexed by page that are reassigned in place, not arrays; a page's bytes and its log entries are kept apart, so that a page used first as data and then as log is not overlaid byte by byte; the `offset` word of a header is in `Format` only, elsewhere a page is its number.
- PageLists: `count` is a difference of page counts, not its residue modulo 2^64; only the global list of the code as written can fall below zero, and no section compares that count.
- FileSystems.FileSystem.Collect: the inode list is a sequence of inode numbers; the pointer operations are proved to be these sequence operations in `Lists`.
- FileSystems.FileSystem.Create: the inode record is given and no descriptor is returned; the inode pool, `hashmap_hash_s32` and the name lookup, which is commented out, are not part of this model.
- The end_write_off of an entry is recorded as the code does; no operation reads it but the collector, which only copies it.
- Initialisation of the local lists (src/super.c:60-71), which has lost its outer loop: local lists start empty.
- `get_cpuid` is any CPU from 0 to 63; the superblock fields, journal and directories are not modelled.
- Pthread semantics and memory ordering: each lock-protected section is one step.
- Crash consistency of the collector, which cuts committed chains in place; only the write path's commit point is claimed.
- Environment set-up (src/nvmio.c:34-83), the collector thread's sleep loop and rates (src/gc.c:179-207), checksums, hashing, and the calls that are todo stubs.
- The commented-out radix-tree allocator (src/allocator.c:118-205), which would repeat the page-list arguments in weaker form.

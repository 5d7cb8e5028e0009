# Verification model of samogon

samogon downloads torrents into an object store, one object per piece keyed by the hash
of its bytes, plus one `.torrent` object per torrent written last. It serves the files of
the stored torrents over SFTP, re-cuts a torrent to another piece length (`repack`), and
deletes pieces that no torrent refers to (`gc`). This project models the parts of it that
carry an argument, and proves them:

- **Reading.** A torrent is one stream of bytes: its files one after the other, cut into
  equal pieces with a shorter last one. `Streams` has the theory of cutting and joining;
  `PieceWalks` the walk over the pieces as a function of what `getPiece` answers;
  `VirtualFiles` the loop of `ReadAt` and the copy loop of `get`, with a `getPiece` that
  logs its calls; `TorrentMetas` the layout `buildMeta` computes and the pieces
  `resolveHashes` picks.
- **Repacking.** `PieceStreams` is the reader over the source pieces and the loop that
  slices it. `Repacks` says what a repack means and proves that it preserves every read,
  can be undone and can be repeated. `RepackMachine` is the process: main loop,
  uploaders, prefetches and foreground fetches over one semaphore.
- **Piece buffers.** `Buffers` is the step system of `WriteAt`, `MarkComplete`,
  `MarkNotComplete`, `Completion` and `ReadAt` over shared piece states, any number of
  pieces and calls. A buffer is a shared slice: `ReadAt` looks under the mutex and copies
  byte by byte after it, in any order, from a slice that may be written or given up
  meanwhile. `PieceStates` has the objects themselves, their mutex sections proved to do
  what the steps do. `Handoff` adds the caller's contract and follows the bytes from RAM
  into the store; `Reads` says what `ReadAt` returns; `Memory` counts all bytes held;
  `ShortRuns` has the building blocks of the runs that show where a property fails.
- **Cache.** `LruCache` is the map plus the doubly linked ring, `Recency` the theory of
  the list it holds, `FetchProtocol` the interleavings of foreground and prefetch fetches
  through singleflight. `Serving` puts reading and cache together.
- **Store.** `Stores` is the abstract store; `StoreRuns` has whole runs of `fetch`,
  `repack` and `gc` that may die anywhere. `RepackRuns` and `FetchRuns` show that the
  process of `RepackMachine` and the piece storage of `Handoff` are such runs. `Sweeps` is
  one gc run that may skip torrents, beside others; `WorkerPool` is `pmap` and the sweep's
  pool. `Committed` goes from end to end: a torrent committed in any such run, read through
  the cache.
- **Names.** `MetaIndex` has the two indexes of loaded torrents, `Paths` path cleaning,
  `Directory` the virtual tree over a flat file list, `Requests` whole SFTP requests.

Go code that changes things in place is a method over arrays or objects here, proved
against a pure function; concurrent code is a step system in which each mutex section and
each blocking operation is a step of its own, and a theorem about it speaks of every
sequence of steps.

## What the proofs rely on

- Hashing is a function parameter `h` (`ih` for info dictionaries, which makes their
  encoding deterministic); where a result needs it, `CollisionFree(h)` or
  `InfoCollisionFree(ih)` is a visible hypothesis.
- singleflight is taken by its documented contract: one leader per key at a time, the
  others wait for it and share its outcome.
- The torrent client calls `WriteAt` only on incomplete pieces, and `MarkComplete` only
  when the buffer holds the verified piece; no other `WriteAt` or Mark call on a piece is
  pending while its `MarkComplete` is. Reads and completion checks may overlap anything,
  and `MarkNotComplete` may race writers. `Handoff`, `Reads`, `FetchRuns` and
  `Memory.ContractBound` use this; the slot ledger, the heap and the progress results of
  `Buffers` and the other results of `Memory` do not. `fetch` commits only when every piece
  is reported complete.
- `Stat` may say no to an object that is there, never yes to one that is not; listings
  are complete snapshots; `gc` does not run beside `fetch` or `repack`.
- A prefetch may start at any time and for any piece, which includes what
  `PrefetchDistance` makes the code do.

## What turned out not to hold

- `uniqueName` promises a name unique under `byName` (meta.go:96-97) but checks only the
  plain name. `RunBijectiveIff` says exactly when the two indexes stay in step over a run
  of reloads: when no torrent ever finds both its plain and its suffixed name taken.
  `UniqueNameFails` says which triples of torrents break it: any of one name, each under
  its own infohash, where the last two infohashes begin with the same eight digits.
- `resolveHashes` on an empty file picks one piece too many, unless the file starts on a
  piece boundary other than 0 or pieces are one byte long (`EmptyFileCover`). The index
  panics exactly for the torrent without any byte, with pieces longer than one byte
  (`EmptyTorrentPanics`).
- `gc` goes on after a torrent it could not load (gc.go:112-115) and may then delete that
  torrent's pieces. `SweepGoodIff` is the exact condition for a run of gc, and
  `SkippingLosesPieces` a run that does it. Commit safety assumes that condition of every
  gc run, and nothing more.
- The bound on memory (fetch.go:28-37) is one on buffers. What is held beside them is
  exactly what uploads and reads still hold after their piece gave the buffer up
  (`PinnedExactly`). So the bound is one on all bytes in every run in which no Mark call
  gives a buffer up while another call holds it (`UndisturbedBound`). A read that a
  `MarkNotComplete` overtakes between its look and its copy exceeds it within the caller's
  contract (`ReaderExceedsBound`), an overtaken upload without (`UploadExceedsBound`).
- `ReadAt` copies without the mutex (fetch.go:166), so that a `WriteAt` in between tears it:
  `TornRead` returns bytes the piece never held at one time. Each byte is still the piece's
  at some moment between the look and its copy (`ReadsFromBuffer`), and the whole result is
  what the piece held at the look if no write covers the range meanwhile
  (`ReadsLastWritten`).
- A torrent whose sanitized name has a slash inside is listed in the root but cannot be
  reached (`RootShownIff`, `SanitizedIsGood`).
- `list` of a directory that does not exist inside an existing torrent is an empty
  listing, not an error. `EmptyListIff` says where: exactly where `stat` finds no directory;
  `MissingIsListed` gives the paths beside a lone file.
- The repository's README says resuming uses HEAD tests; the code looks pieces up in a
  listing taken at the start, and so does the model.

## Model

| member | source | states |
|---|---|---|
| Streams.FlattenCut | repack.go:158-196 | joining the pieces a stream is cut into gives the stream back: nothing is lost, repeated or reordered |
| Streams.CutFlatten | README.md:48-55 | the layout with full pieces and a non-empty shorter last one determines the cut, so cutting and joining are inverse to each other |
| Streams.CutWellCut | README.md:48-55 | every cut has that layout |
| Streams.CutAt | sftp.go:259-266 | piece i holds exactly the stream positions from i times the size up to the next multiple or the end |
| Streams.CutCount | repack.go:143 | a stream is cut into exactly ceil(length / size) pieces, by the formula the code reserves space with |
| Streams.CutInside | sftp.go:263-269 | quotient and remainder of a stream position are the piece it lies in and the offset there, measured by the lengths of the pieces before it |
| PieceWalks.DependsOnLog | sftp.go:257-284 | how far a read comes and how it ends depends only on the getPiece calls in its log |
| PieceWalks.StopsWhere | sftp.go:257-284 | a walk that does not get through ended because there is no piece hash for its position, or because its last call, which was for the piece of this position, threw or gave nothing from there on |
| PieceWalks.WholeWalk | sftp.go:257-284 | a walk whose pieces are served gets through, asking for those from the first byte's to the last byte's, each once, in order; nothing is assumed of other pieces |
| VirtualFiles.VirtualFile.ReadAt | sftp.go:241-295 | for every offset and length: the buffer gets a prefix of the file's bytes at that offset, clipped to the file, the rest of the buffer is untouched, a count below the request always comes with an error; it makes the calls of its walk and comes as far, and if it falls short or throws, its last call was for the piece at the position it stopped at, which was short, missing or raised an error, or there is no such piece |
| VirtualFiles.VirtualFile.WalkInto | sftp.go:257-284 | the loop copies a correct prefix, as long as the walk over the answers says, and logs exactly its calls |
| VirtualFiles.VirtualFile.Turn | sftp.go:262-284 | one turn makes the next call of the walk and copies what it gives, or stops where the walk stops |
| VirtualFiles.ServedGetsThrough | sftp.go:241-295 | a request whose pieces are served gets all its bytes, by one call for each piece under it |
| VirtualFiles.CopyFile | get.go:147-176 | for every chunk size the loop ends, has written a correct prefix, and reports success exactly when that is the whole file; otherwise the last getPiece was for the piece at the position where it stopped, less than a chunk ahead, and fell short, by an exception exactly if the copy threw |
| TorrentMetas.BuildMeta | meta.go:153-190 | the metadata has the layout function's files, total length and hashes |
| TorrentMetas.LayoutIs | meta.go:161-178 | the layout has one entry per file, in order, each with the file's own length and path, starting at the sum of the lengths before it; a single-file torrent is one entry of its sanitized name at 0 |
| TorrentMetas.SanitizedIs | meta.go:192-202 | the sanitized name is the name without the slashes at both ends, or "torrent" if that is empty, "." or ".." |
| TorrentMetas.LayoutPartitions | meta.go:161-178 | the files of a torrent partition its stream, from 0 to the total length without gap or overlap |
| TorrentMetas.EachPositionInOneFile | meta.go:161-178 | every stream position lies in exactly one file |
| TorrentMetas.ResolveHashes | get2.go:190-232 | the hashes of the first file with the path, all hashes for an empty path, an error for an unknown path, a panic when the range leaves the hash list |
| TorrentMetas.CoverIsOverlap | get2.go:222-231 | for a non-empty file the index range is exactly the pieces sharing a position with the file |
| TorrentMetas.CoverIsWholeRead | get2.go:222-231 | and these are, in order, the hashes of the pieces ReadAt calls getPiece for when it reads the whole file and they are served |
| TorrentMetas.EmptyFileCover | get2.go:222-231 | an empty file overlaps no piece, and exactly when the range of the code agrees with that |
| TorrentMetas.EmptyTorrentPanics | get2.go:222-231 | with as many hashes as the length asks for, an empty file makes the index panic exactly in the torrent without any byte, if pieces are longer than one |
| PieceStreams.PieceStream.Read | repack.go:263-291 | fills the slice with the next bytes of the joined source pieces, uneven and empty ones included; ends; EOF exactly at the end; throws exactly at a piece that cannot be fetched |
| PieceStreams.PieceStream.Step | repack.go:278-287 | one copy leaves cursor, position and buffer consistent with the bytes consumed, and makes progress |
| PieceStreams.ReadFull | repack.go:159 | reads until the buffer is full or the stream ends, and says which |
| PieceStreams.Reslice | repack.go:158-217 | the chunks emitted are the stream cut at the new piece size; gives up exactly when some source piece cannot be fetched, and otherwise complains exactly when the stream has the wrong length |
| Stores.HashOfData | README.md:52-57 | in a content-addressed store, hashing the pieces of a hash list gives the list |
| Stores.DataOfHash | README.md:52-57 | with a collision-free hash, looking up the hashes of stored chunks gives the chunks |
| Repacks.SameStream | repack.go:158-227 | the rebuilt torrent is well-formed, has the same stream, files and offsets, and its pieces are the stream cut at the new size |
| Repacks.FileDescribes | meta.go:153-190 | in a well-formed torrent every file lies inside the stream its pieces make up |
| Repacks.ReadServed | sftp.go:241-295 | a read whose pieces are served gives all its bytes, and EOF exactly at the end of the file or below the request |
| Repacks.ReadBoth | sftp.go:241-295 | two torrents with the same files over one stream answer every read alike when the pieces under it are served |
| Repacks.ReadRepacked | repack.go:158-227 | repack preserves meaning: when the pieces under it can be fetched, a read of any file gives the same bytes, count, error and untouched rest on the source and on the rebuilt torrent |
| Repacks.RepackIdempotent | repack.go:167-182 | repeating a completed repack leaves the store as it is |
| Repacks.RepackVia | repack.go:158-227 | going through piece length A to B gives the info dictionary that going straight to B gives |
| Repacks.RepackBack | repack.go:158-227 | repacking and then cutting at the original length gives the original hashes |
| Repacks.RepackRoundTrip | repack.go:158-241 | there and back again: the original torrent, and the way back changes nothing in the store |
| RepackMachine.StepKeeps | repack.go:131-241 | every step of every goroutine keeps the machine's invariant |
| RepackMachine.AlwaysInv | repack.go:131-137 | the invariant in every reachable state: at most UpSem store operations hold the semaphore, what is stored is what was there and the chunks put, and a piece fetched is the right one |
| RepackMachine.LoadedIsSource | repack.go:299-351 | whatever prefetches and evictions do, what a fetch returns to the stream is the source piece it asked for |
| RepackMachine.ChunksAreSource | repack.go:158-196 | the chunks emitted and the stream behind them are always the bytes of the pieces fetched so far; at the end the chunks are the source's stream cut at the new length |
| RepackMachine.FinishedIsComplete | repack.go:196-241 | when the torrent key is written every new piece is stored under its hash, nothing else has changed, pieceCount = newPuts + skipPuts, and the lengths add up |
| RepackMachine.FinishedIsRepacked | repack.go:99-245 | a process that finishes has done exactly the repack of module Repacks, with the bytes it fetched |
| RepackMachine.NeverMismatch | repack.go:203-205 | on a well-formed torrent the length check never fails |
| RepackMachine.NeverStuck | repack.go:131-203 | with one token or more, in every reachable unfinished state some goroutine can make a step that is no failure, unless the main one is about to give up on a lost piece or a wrong length, and then it can |
| Buffers.StepKeeps | fetch.go:119-247 | every step of every call keeps the slot ledger |
| Buffers.AlwaysLedger | fetch.go:119-224 | in every reachable state tokens in bufSem = pieces with a buffer + writers that acquired but have not rechecked + Mark calls that freed but have not received, and sem counts the uploads |
| Buffers.ReceivesNeverBlock | fetch.go:138-208 | whoever receives from bufSem or sem finds a token |
| Buffers.AlwaysHeap | fetch.go:119-224 | in every reachable state each buffer is as long as its piece and no other piece's, and a slice some call still holds has not become another piece's buffer |
| Buffers.MemoryBound | fetch.go:28-37 | at most InflightPieces buffers, so at most that times the longest piece in buffered bytes, for any caller |
| Memory.PinnedExactly | fetch.go:119-224 | all bytes held, each slice counted once, are the buffered bytes plus those of slices that uploads and reads hold after their piece gave them up |
| Memory.PinnedBound | fetch.go:28-37 | for any caller: within InflightPieces plus the number of such calls, times the longest piece |
| Memory.UndisturbedBound | fetch.go:28-37 | within InflightPieces times the longest piece in every run in which no Mark call clears a buffer that another call holds |
| Memory.ContractBound | fetch.go:28-37 | under the caller's contract uploads add nothing: only reads that a Mark call overtook count beside the slots |
| Memory.ReaderExceedsBound | fetch.go:155-224 | a run within the contract, with one slot, that holds two pieces: one by a ReadAt overtaken between look and copy |
| Memory.UploadExceedsBound | fetch.go:189-224 | a run outside the contract that does so by an upload whose slot a MarkNotComplete gave up |
| Buffers.StuckIff | fetch.go:122-209 | a state with pending calls cannot move if and only if every pending call is a WriteAt waiting for a slot and exactly InflightPieces pieces hold buffers |
| Buffers.UnmarkUnblocks | fetch.go:212-224 | MarkNotComplete on any buffered piece then runs through without blocking and lets every waiting writer go on |
| Buffers.MarkUnblocks | fetch.go:189-210 | so does MarkComplete, through its upload, when only writers are pending |
| Buffers.WaitersHaveNoBuffer | fetch.go:119-139 | with one WriteAt per piece at a time, every waiting writer's piece has no buffer |
| Buffers.MarkedIsStored | fetch.go:189-210 | a MarkComplete that is past its upload, or has returned without error, has its piece in the store |
| Buffers.WriteAnswers | fetch.go:119-153 | in every run a WriteAt waits exactly if its piece has no buffer when it looks; else, or once it holds a slot, it answers the length of its data with the data at its offset and every other byte as before, zero if never written, or, exactly if it would run past the piece, a short write with no byte changed |
| Buffers.MarkAnswers | fetch.go:189-210 | a returned MarkComplete answers success if and only if its upload went through, and an error if and only if its upload failed |
| PieceStates.PieceState.WriteFirst | fetch.go:119-153 | waits exactly without a buffer; else the data is at its offset, other bytes as before, and the answer is its length, or nothing changes and it is a short write, exactly if the data does not fit |
| PieceStates.PieceState.WriteHeld | fetch.go:130-153 | after acquiring: the same on a buffer of the piece's length, all zeros unless someone else allocated; the slot is spare exactly then |
| PieceStates.PieceState.Splash | fetch.go:141-152 | byte k of the data goes to position offset + k of the slice, every other position is as before, and the length is answered; or nothing changes and it is a short write, exactly if the data would run past the end |
| PieceStates.CopyOut | fetch.go:161-168 | undisturbed, the copy fills the slice given with the buffer's bytes from the offset on, as far as both go, leaves the rest alone, and is EOF exactly past the end |
| PieceStates.PieceState.Read | fetch.go:155-187 | uninterrupted: reads from the buffer as far as it goes, asks the store exactly when complete without a buffer, else EOF |
| PieceStates.PieceState.FinishMark | fetch.go:200-204 | complete, buffer dropped, and whether there was one |
| PieceStates.PieceState.Unmark | fetch.go:212-217 | incomplete, buffer dropped, and whether there was one |
| PieceStates.PieceState.Completion | fetch.go:226-247 | complete exactly if it was or the listing has its hash, and it stays so |
| PieceStates.StateTable.StateFor | fetch.go:75-87 | every facade of a piece gets the same state object, a fresh one on first use |
| PieceStates.SectionsAgree | fetch.go:119-247 | in every run each step does to what its piece looks like, and answers, what the section's method does, for every section of every call; other pieces look the same |
| Handoff.ActKeeps | fetch.go:119-247 | under the caller's contract each step keeps: the bytes written are in the buffer or in the store |
| Handoff.CompleteIsStored | fetch.go:189-247 | a piece reported complete has its key in the store, and the store stays content-addressed |
| Handoff.WrittenIsSomewhere | fetch.go:155-210 | written bytes are never nowhere: a read of a written piece finds a buffer, or the stored piece |
| Reads.ReadsFromBuffer | fetch.go:155-168 | a ReadAt that found a buffer returns as many bytes as asked for and there, each of them the piece's byte at its place in some state between the look and that byte's own copy, whatever is written, given up or handed over meanwhile |
| Reads.ReadsFromStore | fetch.go:171-187 | one that found none returns, if the piece is complete, the bytes of its hash, which are the bytes last written; or the store fails; else EOF |
| Reads.ReadsLastWritten | fetch.go:155-210 | a ReadAt returns exactly the bytes last written when it looked, still in RAM or moved to the store, if no WriteAt covers a byte of its range before it is done, unless the store read fails |
| Reads.ReadsBack | fetch.go:119-187 | what a WriteAt wrote is read back: a later ReadAt of its range, or a part of it, returns exactly those bytes of its data, from RAM or from the store, if no other WriteAt covers the range before the read is done and no MarkNotComplete cleared the piece before it looked, unless the store read fails |
| Reads.TornRead | fetch.go:155-168 | without that condition a run within the contract returns two bytes the piece never held together |
| LruCache.LRU.constructor | cache.go:24-30 | an empty cache of the given capacity |
| LruCache.LRU.Get | cache.go:32-45 | map and ring agree afterwards; returns the value held and moves its entry to the front |
| LruCache.LRU.Put | cache.go:47-69 | map and ring agree afterwards; the list is the recency list with the new entry in front, the last one evicted when over capacity |
| LruCache.LRU.EvictBack | cache.go:61-68 | exactly the last entry leaves list and map |
| LruCache.MoveToFront | cache.go:41-53 | relinking the ring moves one element to the front and keeps the others in order |
| Recency.CacheIsMostRecent | cache.go:32-69 | after any calls the cache holds exactly the cap most recently touched entries, in order |
| Recency.KeptIff | cache.go:32-69 | a key is cached if and only if it was touched and fewer than cap distinct other keys were touched since |
| Recency.HitIsLastPut | cache.go:32-69 | a hit returns the value last put under the key |
| Recency.LargerHoldsMore | cache.go:32-69 | after the same calls the smaller cache's list is a subsequence of the larger one's, values included |
| Recency.LargerKeepsHits | cache.go:32-69 | a larger capacity never turns a hit into a miss |
| FetchProtocol.StepKeeps | sftp.go:297-344 | every step of every foreground or prefetch call keeps the protocol's invariant |
| FetchProtocol.CachedIsStored | repack.go:299-351 | every cached value equals the stored piece, at every moment |
| FetchProtocol.HitAnswers | sftp.go:324-334 | a foreground call that finds its piece cached answers exactly it at once, without entering singleflight, and a leader that finds it cached leaves without a GET |
| FetchProtocol.UsesAreRecent | sftp.go:312-341 | every lookup that finds a piece makes it the cache's most recent entry and loses no other, and so is a piece a GET brought |
| FetchProtocol.GetAfterMiss | sftp.go:307-336 | a GET is made only after its leader has missed in the cache inside singleflight, and, for a foreground call, before it |
| FetchProtocol.OneGetPerKey | sftp.go:312-330 | at most one GET per hash is in flight in a singleflight group |
| FetchProtocol.EvictedIsExcused | cache.go:55-68 | a key some call touched and the cache lost has had cap distinct other keys touched after it |
| FetchProtocol.ForegroundResult | sftp.go:297-344 | a foreground call that returns has the exact piece, or finds it missing; the latter only if its leader was a prefetch whose GET failed or cap distinct other keys were touched after the leader's last touch |
| FetchProtocol.ThrowsOnlyOnFailure | sftp.go:332-339 | a foreground call throws only if the GET of a foreground call for the same hash failed |
| Serving.AnswersTruthful | sftp.go:297-344 | the answers ReadAt gets from such calls are exact pieces or nothing, and nothing comes with a reason found in that very call: an error after a failed foreground GET, a failed prefetch, or an eviction by cap other keys |
| Serving.ReadStored | sftp.go:241-344 | a read of a stored file through the cache gives a prefix of the file's own bytes whatever prefetches, failures and evictions happen meanwhile; if it falls short or throws, its last call, which was for the piece it stopped at, has such a reason |
| StoreRuns.StepKeeps | fetch.go:266-372 | every store operation of every run keeps the store good |
| StoreRuns.AlwaysGood | fetch.go:355-369 | commit safety: from a good store, after any sequence of fetch, repack and gc runs dying anywhere, every stored torrent has all its pieces and every piece key holds bytes of that hash, if what gc skips is covered by what it loads |
| StoreRuns.FetchEnds | fetch.go:287-369 | a fetch that commits has put its torrent under its infohash, all pieces of it being stored, and left every other torrent and all pieces alone; one that finds the marker has changed nothing and the key is there |
| StoreRuns.SweepIsExact | gc.go:118-177 | a finished sweep leaves exactly the referenced pieces, with scanned = kept + deleted |
| RepackRuns.ProcessIsRun | repack.go:99-245 | every state of a repack process, step by step, is one that a run of StoreRuns reaches from the same store |
| RepackRuns.ProcessKeepsGood | repack.go:99-245 | so a repack process leaves a good store good wherever it dies |
| FetchRuns.StorageIsRun | fetch.go:119-247 | and so is every state of a fetch's piece storage under the caller's contract, with its store and its set of complete pieces |
| FetchRuns.CommitsTorrent | fetch.go:355-369 | when every piece is reported complete, that run goes on to commit and ends with exactly the torrent added under its infohash |
| FetchRuns.CommitIsSafe | fetch.go:355-369 | so the store is good before and after the torrent is added |
| Committed.StoredContent | README.md:48-57 | a torrent whose hashes are those of a content cut at its piece length, and whose pieces are stored, is well-formed and has that content |
| Committed.CommittedContent | fetch.go:355-369 | so a torrent of some content that is stored after any runs over a good store has exactly that content |
| Committed.ReadCommitted | sftp.go:241-344 | and a read of any of its files through the cache gives a prefix of that file's own bytes, which are the part of the content behind the files before it, from the offset on, cut short only at a piece the run has a reason not to give |
| Committed.GetCommitted | get.go:147-176 | copying a whole file out writes a prefix of its own bytes, and all of them exactly if it reports success |
| Sweeps.SweepLeaves | gc.go:82-177 | a finished gc run, whatever it skipped, has left exactly the pieces the loaded torrents list less what other gc runs deleted meanwhile, with scanned = kept + deleted |
| Sweeps.SweepGoodIff | gc.go:82-177 | the store is then good if and only if every skipped torrent that could have been read has all its pieces listed by loaded ones, and no other gc deleted a referenced piece |
| Sweeps.SweepReports | gc.go:129-177 | a finished sweep has scanned as many keys as it listed, kept as many of them as are referenced by loaded torrents and deleted as many as are not |
| Sweeps.SkippingLosesPieces | gc.go:112-115 | a run in which the one torrent is skipped and loses its piece |
| WorkerPool.StepKeeps | gc.go:57-80 | every step of producer and workers conserves the items: queued, in hand or done |
| WorkerPool.EachOnce | gc.go:57-80 | when the pool returns every item has been worked on exactly once, for any interleaving |
| WorkerPool.NeverStuck | gc.go:57-80 | with at least one worker the pool can always go on until it returns |
| MetaIndex.Meta.Reload | meta.go:52-78 | the new indexes are those of the pure reload |
| MetaIndex.Meta.LoadOne | meta.go:80-94 | one torrent enters both indexes, under its sanitized name exactly if no entry has it, else suffixed |
| MetaIndex.LoadedName | meta.go:80-113 | every torrent a reload loads is shown under its sanitized name exactly if the torrents before it leave that name free, else under it with a dash and the first eight digits of its infohash, and keeps the name |
| MetaIndex.FreeIffUnshown | meta.go:98-104 | in indexes in bijection a name is free exactly if no indexed torrent is shown under it |
| MetaIndex.SuffixesDiffer | meta.go:106-112 | suffixed names of one name differ when the first eight digits do |
| MetaIndex.Meta.PruneGone | meta.go:115-129 | exactly what is no longer listed leaves, in whatever order the map is walked |
| MetaIndex.ReloadKeyed | meta.go:28-31 | every run of reloads keeps entries under their own name and hash |
| MetaIndex.ReloadBijectiveIff | meta.go:52-129 | a whole reload keeps the two indexes in bijection if and only if every torrent it loads finds its plain or its suffixed name free |
| MetaIndex.RunBijectiveIff | meta.go:52-129 | so over any run of reloads they stay in bijection if and only if no torrent ever finds both taken |
| MetaIndex.UniqueNameFails | meta.go:96-113 | any three torrents of one sanitized name, each under its own infohash, break the bijection if the last two infohashes begin with the same eight digits |
| MetaIndex.PruneBijective | meta.go:115-129 | dropping what is gone keeps the bijection |
| MetaIndex.ReloadSound | meta.go:52-129 | when plain and suffixed names do not otherwise collide, reloads keep the bijection |
| MetaIndex.ReloadExact | meta.go:52-129 | a reload leaves exactly the listed torrents that were loaded or load now, the former unchanged, the latter as their blobs say |
| Paths.SplitPathGood | sftp.go:83-98 | whatever the client sends, the result is the root, or a good name and a clean path or none: no dots, no empty part |
| Paths.SplitPathExact | sftp.go:83-98 | a clean path is split as it is |
| Directory.List | sftp.go:100-163 | the listing is the collected entries, sorted |
| Directory.LeqIff | sftp.go:160 | the order it is sorted by: the character at the first difference decides, and a proper prefix comes first |
| Directory.Stat | sftp.go:165-199 | a file with exactly this path, else a directory some file lies below, else nothing |
| Directory.ListAt | sftp.go:348-360 | copies the window that exists, leaves the rest of the slice alone, EOF exactly when it falls short |
| Directory.ListedIsStat | sftp.go:100-199 | over clean non-conflicting paths a listing is sorted, names every entry once, and each entry is what stat says of its path |
| Directory.StatIsListed | sftp.go:100-199 | every path stat finds is in its parent's listing exactly once |
| Directory.EmptyIffNoDir | sftp.go:127-163 | below the root of a torrent a listing is empty if and only if stat finds no directory there |
| Requests.ListPath | sftp.go:100-163 | the root lists every torrent once, sorted; a torrent path lists that directory; an unknown torrent is an error |
| Requests.OpenPath | sftp.go:201-230 | openFile succeeds exactly where stat finds a file, and hands out the file with that path and size |
| Requests.SplitPathChild | sftp.go:83-98 | going down one name from any request, clean or not, goes down one name in the tree |
| Requests.UpUndone | sftp.go:83-98 | a good name followed by ".." goes nowhere, wherever it stands in a request |
| Requests.DotUndone | sftp.go:83-98 | nor does an empty part or "." |
| Requests.RootIsTop | sftp.go:83-98 | ".." at the start of a request stays at the root |
| Requests.StatPath | sftp.go:165-199 | the root is a directory "/" of size 0, an unknown torrent is an error, a torrent is a directory with its total length, and inside it the first file with the path answers, else a directory if some file lies below, else an error |
| Requests.RequestFindsFile | sftp.go:201-230 | in a torrent with tidy paths, the request made of its name and a file's path reaches exactly that file, with its own length and its own place in the stream |
| Requests.ListedPathIsStat | sftp.go:100-199 | each listed entry, looked up under the listed path, is what stat answers |
| Requests.StatPathIsListed | sftp.go:100-199 | whatever request stat answers inside a torrent, the entry is once in the listing of a directory that requests can name |
| Requests.EmptyListIff | sftp.go:100-199 | so list answers a request inside a torrent with an empty listing exactly where stat finds nothing or a file |
| Requests.MissingIsListed | sftp.go:100-199 | in any torrent of one file: a path where stat finds nothing and list answers an empty listing |
| Requests.RootShownIff | sftp.go:100-183 | a torrent in the root listing is found by stat if and only if its name is a good path part |

## Left out

- The S3 client, retries and pagination: the store is a map, its operations may fail.
- SSH, authentication, the bot, benchmarks, flags, progress reports, rates, modification
  times, colours and logging. An exception is an outcome.
- The torrent swarm, SHA-1, bencode, and the inside of singleflight: see what the proofs
  rely on.
- 64-bit overflow: lengths, offsets and counters are unbounded. Negative offsets in
  `WriteAt` and `ReadAt` of a piece, and torrents with a piece length of 0, which make the
  Go code panic.
- Strings are sequences of characters, compared character by character.
- Sorting is insertion sort, in place of `sort.Slice` and `sort.Strings`.
- The two key families of the store are two maps, as the key helpers keep them apart.
- An upload reads its slice at one moment, where the code takes time to send it; under the
  caller's contract nothing writes to the slice meanwhile, without it a `WriteAt` could. A
  `WriteAt` copies at one moment, too: as a `ReadAt` copies its bytes in any order, one
  that runs into the middle of a write is still among the runs. A slice counts as held
  until the copy or the upload is done.
- `get2`'s shuffling and worker loops, beyond which hashes it resolves.
- Readers of the two indexes while a reload runs: the mutex makes each access atomic.
- The crash of the whole process by a panic in a prefetch that is not caught.
- `gc` beside a running `fetch` or `repack`: the code does not protect against it. `gc`
  beside `gc` is modelled.
- StoreRuns.AlwaysGood: assumes that the readable torrents gc skipped have their pieces listed by loaded ones, because the code does not keep the store good otherwise; Sweeps.SweepGoodIff shows that this is exact.
- Directory.ListedIsStat: assumes clean paths without repetition or a file that is also a directory, which torrents from the wild need not have.
- Directory.EmptyIffNoDir: assumes the same, and so do Requests.EmptyListIff and Requests.ListedPathIsStat.
- MetaIndex.ReloadSound: assumes that plain and suffixed names do not collide, because uniqueName does not check; ReloadBijectiveIff is the exact condition.

# A verified model of the Freally chunk repository and audit log

Freally keeps versioned backups in a deduplicating repository and writes a tamper-evident audit
log. This project models both in Dafny and proves what they are for.

**The repository** (`crates/freally-chunk`) has three layers. The chunk store is an append-only
allocator: an index from digest to an encoded locator, pack files, and one active pack. The
repository adds a snapshot catalog, recorders under a shared lease, and a collector and compactor
under the exclusive one, with the index and the catalog committed separately. The chunker and the
manifests cut files and put them together again.

**The audit log** (`crates/freally-audit`) chains its records: each embeds the digest of everything
before it. A writer, a resumer and a verifier must compute the same chain from the same text.

## How it is modelled

- `StoreState` gives the store as a value with the steps that change it, and the invariant: every
  row decodes, lies inside a pack, shares no byte with another row, and decodes to a text of the
  recorded length and digest. `ChunkStores.ChunkStore`, `Repositories.Repository` and
  `AuditSinks.AuditSink` are classes with the program's own fields; each method is proved to take
  its state where the value-level function says, error paths included, and the properties are
  lemmas about those functions.
- `Protocol` is the concurrent form: one step for each thing another thread or a crash can fall
  between, among them the unlocked probe, the lock, the re-check, the creation and saving of a
  pack, the append, the row commit, the allocation of a snapshot id and the commit of its row,
  every stage of collection and compaction, an ingest that stops after any chunk, and at each point
  an operation that fails and leaves the process running. `StepSafe` is the invariant over all of
  them and `StepRefines` says what each does to the map from digest to text; `Durability`, `Tiling`
  and `Resume` reason over whole runs, and `LonePut` and `Runs` tie the steps back to the
  sequential operations. `Abandoned` follows the failing case of `Resume` through a run.
- `Compaction`, `Space` and `Compactor` go from one move to a pack, to the loop over packs, to the
  bound on disk use, and `Ledger` checks their reports against what was moved and deleted. `Gc` and
  `Marking` do the same for collection.
- `Chunking` has the whole-buffer chunker as the reference and the rolling-buffer loop over a
  reader that returns as much or as little as its schedule says. FastCDC is a scan between the
  minimum and maximum sizes over an arbitrary per-position predicate.
- `Replication`, `VerifyRepair`, `Unique`, `Diff` and `Report` are the passes over the catalog;
  `Diagnosis` says what a verification reports in terms of the index and of reading alone.
- `AuditText`, `AuditFormat` and `AuditChain` are the text layer, the CEF and LEEF records with their
  extractors, and the chain. `AuditPairs` and `AuditReadback` read a record back to the event it
  tells. `AuditTamper` says when two records redact alike, `AuditHistory` what
  two accepted logs must have in common, `AuditEchoes` has the records nothing tells apart, and
  `AuditTorn` what becomes of a record of which only a part was written.

## Assumptions

- BLAKE3 is an arbitrary function to 32 bytes. Nothing assumes it injective: a result that needs
  it asks for no collision among the finite set of texts at hand (`CollisionFree`), or exhibits two
  different byte strings with one digest.
- zstd is two functions, of which only that decompression undoes compression is assumed
  (`Lossless`). Snapshot serialisation is one function of the snapshot.
- Random pack ids are a fixed sequence; an operation assumes the ids it can draw are new and
  distinct (`Fresh`, with a finite count).
- A crash is process death followed by reopening, with any part of an unfinished append on disk.
- The compaction threshold is a fraction num/den.

## What the code does that one might not expect

- A short read in mid-stream that leaves exactly the maximum chunk size in the buffer can cut a
  chunk the whole-buffer chunker would not (`ShortReadDiffers`, at any sizes by `AnySizesCanDiffer`);
  `StreamingIsBatch` is the exact condition, `FullReadsStreamIsBatch` the usual case. Either way the
  file is stored and restored intact.
- A range read whose end passes 2^64 does not return the slice (`RangeReads`, `RangeWraps`).
- A roll switches to the new pack in memory before it saves the id (`store.rs:530-536`). If the save
  fails and the process goes on, a later collection may delete the pack that is still saved. After a
  restart a new text can be put if and only if the saved pack is there, no id was ever saved, or
  packs are rolled before every append (`RestartExactly`, `PutAfterRestartExactly`); abandoning a
  roll is the only step that lets saved and active pack part (`StepResumable`), and deleting the
  saved pack the only one that spoils a restart (`StepRestorable`), which after an abandoned roll
  happens exactly when that pack has rows and none is reachable (`AbandonedRollLosesPuts`).
  `AbandonedRepository` is a repository with two texts in which it does. Nothing stored is lost
  (`StepSafe`), and the next roll mends it.
- The documentation of `chain_hash_redacted` (`crates/freally-audit/src/lib.rs:712-724`) says the
  hash column always comes last. In CEF and LEEF event fields follow it, so a later field that
  holds the same 64 characters is the one redacted. Writer, resumer and verifier still agree, but
  two records can then redact alike: `RedactAlikeExactly` says exactly which, `ReplacementExactly`
  that those and no others can be exchanged unnoticed, and `SwappedPathsAreTwins` has a pair that
  the writer itself prints.
- Tabs in a LEEF value are not escaped, so that a reader that splits at every tab misreads it
  (`TabsSplit`); one that looks for keys does not (`PairsReadBack`).
- The last record of an audit log is vouched for by nothing (`LastRecordUnprotected`,
  `LastRecordsDiffer`).
- A record torn by the death of its writer is taken for a record on reopening, and the next one is
  written on the same line. The line is accepted exactly if the tear comes after the separator that
  ends the embedded digest (`RecordAfterTear`); even then a second record of the same sink is not,
  though one of a sink opened after it is (`SecondAfterTear`).

## Model

| member | source | states |
|---|---|---|
| `Locators.LocatorRoundTrip` | crates/freally-chunk/src/store.rs:694-746 | Every locator decodes from its 34-byte row to itself. |
| `Locators.RowLayout` | crates/freally-chunk/src/store.rs:694-704 | Where each field of a row stands, byte by byte, least significant first, and the codec tags 0 and 1. |
| `Locators.LocatorRows` | crates/freally-chunk/src/store.rs:705-746 | Exactly which rows decode: 34 bytes with a known codec tag, or the legacy 28 bytes, which mean an uncompressed chunk whose stored length is its length; and what re-encoding a decoded row gives, the reserved byte zeroed. |
| `Library.EncodeRoundTrip` | crates/freally-chunk/src/compress.rs:124-145 | Whatever a compression policy chooses decodes to the plaintext, is never longer than it, and is raw exactly when it is as long. |
| `Library.EncodeKeepsPromise` | crates/freally-chunk/src/compress.rs:124-145 | What each policy keeps: Off the text; Always the shorter of text and frame; Auto a frame below 97 hundredths of the text and otherwise the text; the text when zstd fails; at the level in range closest to the one asked for. |
| `ChunkStores.ChunkStore.constructor` | crates/freally-chunk/src/store.rs:164-229 | Opening a directory resumes the saved pack at its length on disk, or creates and saves a first pack; the rest of the disk is unchanged. |
| `ChunkStores.ChunkStore.RollLocked` | crates/freally-chunk/src/store.rs:522-537 | A new empty pack becomes active in memory and in the stats row; nothing else changes. |
| `ChunkStores.ChunkStore.PutChunk` | crates/freally-chunk/src/store.rs:279-359 | The whole new state and answer: a stored digest answers its codec and changes nothing; an undecodable row is an error; otherwise encode, roll when full, append, commit the row. The bytes appended and the codec answered are those the policy promises, at the place the row names. |
| `ChunkStores.ChunkStore.GetChunk` | crates/freally-chunk/src/store.rs:372-396 | Absent row, missing pack, undecodable frame and wrong digest are told apart; reading changes nothing; a text handed out has the digest asked for, in any store. |
| `ChunkStores.ChunkStore.PutManifest` | crates/freally-chunk/src/store.rs:401-411 | The manifest table gains or replaces one entry; nothing else changes. |
| `ChunkStores.ChunkStore.RemoveChunkIndexEntries` | crates/freally-chunk/src/store.rs:464-480 | The index loses exactly the listed digests. |
| `ChunkStores.ChunkStore.RemovePackFile` | crates/freally-chunk/src/store.rs:495-503 | The pack is gone and its size, or zero, is returned. |
| `ChunkStores.ChunkStore.AllLocators` | crates/freally-chunk/src/store.rs:440-460 | Each row once with its locator; one undecodable row fails the whole listing. |
| `ChunkStores.ChunkStore.PackStats` | crates/freally-chunk/src/store.rs:554-586 | One entry a pack, whose live bytes and live chunks are those of the rows that point into it. |
| `ChunkStores.ChunkStore.MoveChunk` | crates/freally-chunk/src/store.rs:640-668 | One move copies the stored bytes to the active pack and then repoints the row; a short or missing source is an error and changes nothing. |
| `ChunkStores.ChunkStore.CompactPack` | crates/freally-chunk/src/store.rs:600-685 | The new state, freed bytes and polls as the drain of the rows then in the pack, for every cancellation schedule. |
| `StoreState.GetRefines` | crates/freally-chunk/src/store.rs:372-396 | Under the row invariant `get` is lookup in the map from digest to plaintext, and each text hashes to its digest. |
| `StoreState.GetExactly` | crates/freally-chunk/src/store.rs:372-396 | In any store, sound or damaged: which answer `get` gives, from the row and the bytes of its pack. Missing exactly if the pack is gone; corrupt exactly if the bytes do not decode or decode to a text with another digest; and a text handed out has the digest asked for. |
| `StoreState.PutRefines` | crates/freally-chunk/src/store.rs:279-359 | `put_chunk` keeps the invariant, moves no stored byte, adds the text if and only if its digest was absent, and answers the codec the index then holds. |
| `StoreState.PutExactly` | crates/freally-chunk/src/store.rs:279-359 | In any store: where a new text goes (the active pack while it is below the size at which packs are closed, else a new one), that the bytes kept are as the policy promises, what the row says, and that nothing else changes. |
| `StoreState.AppendRowRefines` | crates/freally-chunk/src/store.rs:318-359 | Appending a new text to any existing active pack and committing its row keeps every row sound and disjoint and sets exactly that digest. |
| `StoreState.PutFresh` | crates/freally-chunk/src/store.rs:279-359 | One put uses at most one random pack id. |
| `StoreState.RollIfFullKeeps` | crates/freally-chunk/src/store.rs:299-308 | Rolling changes no row and no text. |
| `StoreState.SetRowKeeps` | crates/freally-chunk/src/store.rs:344-358 | Committing a row for sound bytes that no other row reads keeps every row sound and disjoint, and sets exactly that digest. |
| `StoreState.DropRowsKeeps` | crates/freally-chunk/src/store.rs:464-480 | Dropping rows removes exactly those digests from the map. |
| `StoreState.DeletePackKeeps` | crates/freally-chunk/src/store.rs:495-503 | Deleting a pack that no row points into changes no text. |
| `StoreState.ReopenRecovers` | crates/freally-chunk/src/store.rs:187-214 | A restart of any disk with sound rows is sound and stands for the same map, whatever unindexed bytes a crash left. |
| `Backend.ReadRange` | crates/freally-chunk/src/backend.rs:91-122 | However reads fall short, the file backend returns the clamped slice the in-memory backend returns. |
| `Compaction.CompactPackKeeps` | crates/freally-chunk/src/store.rs:600-685 | Cancelled after any poll or not at all, compacting a pack keeps the invariant and the whole map; the pack goes only when no row points into it, and goes for certain when nothing cancels. |
| `Compaction.DrainStep` | crates/freally-chunk/src/store.rs:618-684 | One move succeeds on a sound store and leaves the rest of the listing, the map and the inactive source as the next move needs them. |
| `Compaction.MoveExactly` | crates/freally-chunk/src/store.rs:618-675 | In any store: a move fails exactly if the pack is gone or holds less than the row says, and otherwise appends the bytes whole and repoints the row with nothing else about it changed. |
| `Compaction.PackAnswers` | crates/freally-chunk/src/store.rs:600-685 | In any store with a sound active pack, compacting a pack, finished, cancelled or failing, changes no answer of `get` for a digest whose bytes are all there. |
| `Compaction.CompactPackCrash` | crates/freally-chunk/src/store.rs:600-685 | Death after any number of moves, with any torn append, or with a pack created for the next one and not yet saved, leaves on reopening the same map, and the source pack intact. |
| `Compactor.PackInactive` | crates/freally-chunk/src/repository.rs:1766-1802 | Draining a target, even through rolls, never makes a pack of the pass's start active, so the active-pack assertion cannot fire on a later target. |
| `Compactor.ChooseTargets` | crates/freally-chunk/src/repository.rs:1772-1784 | Exactly the non-active, non-empty packs whose dead bytes reach the threshold, each once. |
| `Compactor.DrainTargets` | crates/freally-chunk/src/repository.rs:1786-1802 | The loop over the targets is the drain of each in turn, and never meets the active pack, on a sound store or a damaged one. What its counters mean is `Ledger.PassBooked`. |
| `Ledger.PassBooked` | crates/freally-chunk/src/repository.rs:1786-1802 | Under every cancellation the counters of a pass are exact: packs that went, rows repointed, and the bytes given back, which with the bytes still there are the bytes there were and those copied; no row moves twice. |
| `Ledger.PassStops` | crates/freally-chunk/src/repository.rs:1786-1802 | A pass cancelled for good at its k-th poll has moved at most k chunks; one cancelled from the start does nothing. |
| `Compactor.CompactionReported` | crates/freally-chunk/src/repository.rs:1755-1810 | The reports of a whole compaction, sweep and roll included: rows dropped, rows repointed, packs gone and bytes reclaimed are counted exactly, against the store before and after. |
| `Space.CompactionSafe` | crates/freally-chunk/src/repository.rs:1755-1810 | Under every cancellation a pass succeeds on a sound store, keeps the invariant, the map, the digests and the manifests; uncancelled, every chosen pack is gone. |
| `Space.CompactionBound` | crates/freally-chunk/src/repository.rs:1766-1803 | After an uncancelled pass at threshold num/den, (den - num) times the disk bytes is at most den times the bytes that rows need. |
| `Space.StoredByPack` | crates/freally-chunk/src/store.rs:554-586 | The per-pack live bytes add up to the stored bytes of the index. |
| `Repositories.Repository.Compact` | crates/freally-chunk/src/repository.rs:1755-1810 | Quick clean, roll, choose, drain: on a sound store the result is the reachable part of the map, unchanged, within the space bound, and both reports are exact; an undecodable row fails before anything changes. |
| `Repositories.Repository.Mark` | crates/freally-chunk/src/repository.rs:1690-1703 | The marked set is exactly the digests some snapshot or stored manifest refers to. |
| `Repositories.Repository.GcLocked` | crates/freally-chunk/src/repository.rs:1684-1747 | The index restricted to reachable digests, the dead packs deleted, and the report's three counters exact; an undecodable row fails before anything changes. |
| `Marking.Classify` | crates/freally-chunk/src/repository.rs:1712-1726 | One pass over the rows yields exactly the orphaned digests and the non-active packs with rows but no reachable row. |
| `Gc.SweepKeepsReachable` | crates/freally-chunk/src/repository.rs:1684-1747 | In any store, sound or damaged, a sweep changes no answer of `get` for a reachable digest and makes every other digest absent. |
| `Gc.SweepDeletes` | crates/freally-chunk/src/repository.rs:1728-1735 | A pack is deleted if and only if it is not active, had a row, and had no reachable row. |
| `Gc.SweepKeeps` | crates/freally-chunk/src/repository.rs:1684-1747 | A sweep keeps the invariant, and the map becomes its reachable part. |
| `Gc.SweepConserves` | crates/freally-chunk/src/repository.rs:1728-1741 | Disk bytes before equal disk bytes after plus the reclaimed bytes reported. |
| `Gc.SweepCounts` | crates/freally-chunk/src/repository.rs:1712-1746 | The first two counters of the report are the rows that went and the packs that went, where a pack that rows name and that is not on disk counts as well. |
| `Gc.SweepIdempotent` | crates/freally-chunk/src/repository.rs:1684-1747 | A second sweep with the same roots changes nothing and reports zeros. |
| `Protocol.StepSafe` | crates/freally-chunk/src/repository.rs:1684-1810 | Each step of a recorder, a catalog edit, an ingest that succeeds or stops after any of its chunks, a collection, a compaction, an operation failing in place, or a crash keeps the invariant, and keeps the exact text of every digest referred to by a snapshot, a manifest or an unfinished recorder. |
| `Protocol.RunInv` | crates/freally-chunk/src/repository.rs:1371-1406 | The invariant holds in every state of every run. |
| `Protocol.ReferencedChunksReadable` | crates/freally-chunk/src/repository.rs:833-850 | In every state of every run from an empty repository, every protected digest is indexed and `get` returns a text with that digest. |
| `Refinement.StepRefines` | crates/freally-chunk/src/store.rs:279-359 | The protocol refines a map: a row commit adds one text under a digest that had none, a collection's row removal keeps exactly the reachable part, an ingest adds the first of its texts, all of them if it succeeds, and no other step changes the map. |
| `Refinement.RunRefines` | crates/freally-chunk/src/repository.rs:1371-1406 | The same at every step of every run, from an empty map. |
| `Resume.StepResumable` | crates/freally-chunk/src/store.rs:522-537 | From a state with active and saved pack on disk, the same pack exactly outside a roll, a step leads to such a state if and only if it does not abandon a roll at its save. |
| `Resume.RunResumable` | crates/freally-chunk/src/store.rs:187-214 | Over every run without an abandoned roll, in every state a restart can resume. |
| `Resume.RestartExactly` | crates/freally-chunk/src/store.rs:187-214 | In any state of the invariant, a restart gives a store at rest if and only if the saved pack is on disk. |
| `Resume.RestartAtRest` | crates/freally-chunk/src/store.rs:187-214 | Without an abandoned roll a restart gives a store at rest, whatever an unfinished append left. |
| `Resume.PutAfterRestartExactly` | crates/freally-chunk/src/store.rs:279-359 | For any disk, a new text can be put after a restart if and only if the saved pack is there, none was ever saved, or every append rolls first; otherwise the put fails and changes nothing. |
| `Resume.StepRestorable` | crates/freally-chunk/src/store.rs:495-503 | A step of a repository whose saved pack is on disk loses it if and only if it is the deletion of that very pack by a collection or a compaction. |
| `Resume.AbandonedRollLosesPuts` | crates/freally-chunk/src/store.rs:522-537 | After a roll whose save failed, a collection and a restart, a new text can be put if and only if the pack left saved keeps a reachable chunk, had none, or every append rolls first; everything reachable reads as before either way, and the next roll puts the store to rest. |
| `Abandoned.AbandonedRun` | crates/freally-chunk/src/repository.rs:1684-1747 | That case as steps: a lone recorder's check, lock, re-check, creation, failure and release, a whole collection and a crash lead to exactly that store, from any state whose active pack is full. |
| `Abandoned.AbandonedRepository` | crates/freally-chunk/src/store.rs:522-537 | The failing input, reached by a run from an empty repository: two texts, one stored and unreferenced, the other's roll abandoned; after it no text at all can be put. |
| `Runs.CollectionRun` | crates/freally-chunk/src/repository.rs:1684-1747 | The steps of a collection that nothing interrupts add up to the sweep of the reachable digests. |
| `Runs.CompactionRun` | crates/freally-chunk/src/repository.rs:1755-1810 | The steps of a compaction that nothing interrupts, under any cancellation, add up to the sweep, the roll and the drains of its plan. |
| `Tiling.AppendedOnce` | crates/freally-chunk/src/store.rs:279-359 | Over every interleaving of recorders the number of appends is the number of rows plus appends in flight, and no pack has a dead byte. |
| `Tiling.ExactTiling` | crates/freally-chunk/src/store.rs:279-359 | With no append in flight each byte of each pack belongs to exactly one row. |
| `Tiling.LonePut` | crates/freally-chunk/src/store.rs:279-359 | The steps of a thread that alone stores a new text lead to the whole state the sequential put gives, whenever that put succeeds. |
| `Durability.SnapshotDurable` | crates/freally-chunk/src/repository.rs:1371-1406 | A snapshot in the catalog at two points of a run has the same files at both and the same text behind every chunk. |
| `Durability.ReadbackDurable` | crates/freally-chunk/src/manifest.rs:143-169 | At every two points of a run at which a snapshot is in the catalog, each of its files reads back with the same answer, whatever the digests. |
| `Durability.CaptureDurable` | crates/freally-chunk/src/repository.rs:833-899 | A snapshot that captures its originals at some point of a run captures them at every later point at which it is still there. |
| `Durability.RestoreIsOriginal` | crates/freally-chunk/src/manifest.rs:143-169 | The same from the pieces a file was cut into, if none of them collides with another text at that point. |
| `Durability.StreamedIngest` | crates/freally-chunk/src/repository.rs:1344-1367 | Under every schedule of short reads the manifest tiles the file, carries its digest, passes interchange validation, and reads back as the input. |
| `Chunking.CutBounds` | crates/freally-chunk/src/chunker.rs:111-125 | A cut is positive, at most the window and at most the maximum. |
| `Chunking.CutExactly` | crates/freally-chunk/src/chunker.rs:111-125 | Where a chunk ends: never before the minimum, at the first stop from there on, and at the maximum or the end of the bytes if there is none. |
| `Chunking.CutStable` | crates/freally-chunk/src/chunker.rs:151-205 | A cut short of the window's end, or of a window at least the maximum long, does not move when the window is extended. |
| `Chunking.ChunkBytes` | crates/freally-chunk/src/chunker.rs:111-125 | The batch chunker returns offsets, lengths and digests of exactly the cuts of the whole input. |
| `Chunking.DescribeExactly` | crates/freally-chunk/src/chunker.rs:111-125 | Each descriptor has the place, the length and the digest of its piece. |
| `Chunking.CutsFlatten` | crates/freally-chunk/src/chunker.rs:111-125 | The cuts concatenate to the input. |
| `Chunking.CutsSizes` | crates/freally-chunk/src/chunker.rs:111-125 | Every cut has between one and the maximum number of bytes, and every cut but the last at least the minimum. |
| `Chunking.Reader.Read` | crates/freally-chunk/src/chunker.rs:158-180 | A reader delivers the next bytes of its input, as many as the schedule allows, and zero only at the end. |
| `Chunking.ChunkReader` | crates/freally-chunk/src/chunker.rs:135-231 | The rolling-buffer loop terminates under every schedule of short reads, emits exactly the streamed pieces with their digests, and returns the digest of the whole input. |
| `Chunking.StreamedCovers` | crates/freally-chunk/src/chunker.rs:151-230 | Under every schedule the streamed pieces concatenate to the input. |
| `Chunking.StreamedSizes` | crates/freally-chunk/src/chunker.rs:151-230 | Under every schedule every piece has between one and the maximum number of bytes. |
| `Chunking.StreamingIsBatch` | crates/freally-chunk/src/chunker.rs:183-224 | Streaming equals batch chunking if and only if each pass before the end of input whose window is exactly the maximum long ends at a place the batch chunker cuts. |
| `Chunking.FullReadsStreamIsBatch` | crates/freally-chunk/src/chunker.rs:151-230 | When every read fills its request or meets the end, streaming equals batch. |
| `Chunking.SmallIsFaithful` | crates/freally-chunk/src/chunker.rs:183-224 | An input no longer than the maximum is chunked the same, under every schedule, as by the batch chunker. |
| `Chunking.ShortReadDiffers` | crates/freally-chunk/src/chunker.rs:183-224 | For every cutter: if the first read of a longer input is exactly the maximum and the batch chunker does not cut there, streaming differs. |
| `Chunking.AnySizesCanDiffer` | crates/freally-chunk/src/chunker.rs:183-224 | No choice of sizes rules that out: for each there are decisions under which every input longer than the maximum differs. |
| `Chunking.RepositorySizesCanDiffer` | crates/freally-chunk/src/chunker.rs:37-57 | In particular at 512 KiB, 1 MiB and 4 MiB, the sizes the repository uses. |
| `Chunking.SixBytesDiffer` | crates/freally-chunk/src/chunker.rs:183-224 | The same as an input to follow by hand: six bytes at sizes 1, 4 and 4, the first read four bytes. |
| `FileIo.ChunkIntoStore` | crates/freally-chunk/src/manifest.rs:95-134 | The new store, the counters and the manifest are those of putting the batch cuts one by one. |
| `FileIo.IngestReader` | crates/freally-chunk/src/repository.rs:1344-1367 | The same for the streamed pieces, with the running offset as file size. |
| `FileIo.IngestBytes` | crates/freally-chunk/src/manifest.rs:75-89 | Chunk and store uncompressed, then record the manifest under its key; a failure records none. |
| `FileIo.MaterialiseFile` | crates/freally-chunk/src/manifest.rs:143-169 | The chunks in order; the first missing, corrupt or wrongly sized one aborts with its own error. Whatever has happened to the store, bytes handed out are made of pieces with the recorded digests and lengths. |
| `FileIo.MaterialiseRangeOf` | crates/freally-chunk/src/manifest.rs:178-210 | The requested part, with the 64-bit end computation and its overflow. |
| `Manifests.IngestKeeps` | crates/freally-chunk/src/manifest.rs:95-134 | Chunking a file into a sound store succeeds, disturbs nothing, tiles the file, records the index's codecs; new chunks equal the growth of the index and new plus deduplicated bytes equal the file size. |
| `Manifests.IngestThenMaterialise` | crates/freally-chunk/src/manifest.rs:143-169 | A file put into a sound store reads back as the original bytes. |
| `Manifests.MaterialiseSame` | crates/freally-chunk/src/manifest.rs:143-169 | Reading back depends only on what `get` answers for the file's own digests. |
| `Manifests.MaterialiseHonest` | crates/freally-chunk/src/manifest.rs:143-169 | In any store, a file handed out is the concatenation of pieces with the recorded digests and lengths. |
| `Manifests.MaterialiseFails` | crates/freally-chunk/src/manifest.rs:143-169 | In any store, a file not handed out fails with the fault of its first unusable chunk. |
| `Manifests.RangeReads` | crates/freally-chunk/src/manifest.rs:178-210 | On a tiled manifest a range read is the clamped slice of the file if and only if the range is empty, starts past the end, or ends below 2^64. |
| `Manifests.RangeFails` | crates/freally-chunk/src/manifest.rs:178-210 | In any store, a range read fails exactly when a chunk that the range meets is unusable, with the fault of the first. |
| `Manifests.RangeTouches` | crates/freally-chunk/src/manifest.rs:178-210 | In any store, a range read gives the slice if the chunks it meets can be read, whatever has become of the others. |
| `Manifests.RangeWraps` | crates/freally-chunk/src/manifest.rs:178-210 | A failing input: on a two-byte file, 2^64 - 1 bytes from byte 1 fails where the slice has one byte. |
| `Manifests.AdjacentReads` | crates/freally-chunk/src/manifest.rs:178-210 | Adjacent range reads concatenate to the enclosing one. |
| `Snapshots.SnapshotCaptures` | crates/freally-chunk/src/repository.rs:833-850 | A snapshot of any list of files into a sound store succeeds, disturbs nothing, and each file reads back as the original bytes. |
| `Snapshots.CapturedStays` | crates/freally-chunk/src/manifest.rs:143-169 | A captured file stays readable, unchanged, as the store grows. |
| `Cdr.Validate` | crates/freally-chunk/src/cdr.rs:219-256 | A manifest is accepted if and only if it is well-formed; a refusal names the first fault in the order of the checks, and everything before it is in order. |
| `Cdr.ToManifest` | crates/freally-chunk/src/cdr.rs:164-183 | Succeeds exactly on well-formed input, with the fields carried over. |
| `Cdr.OutAndBack` | crates/freally-chunk/src/cdr.rs:142-183 | A manifest survives export and import; the export validates if and only if the chunks tile the file. |
| `Cdr.InAndOut` | crates/freally-chunk/src/cdr.rs:142-183 | A well-formed interchange manifest survives import and export, and imports as a tiling. |
| `Repositories.Repository.constructor` | crates/freally-chunk/src/repository.rs:671-693 | Opening takes over the catalog found on disk: rows, summaries and next id. |
| `Repositories.Repository.AllocateSnapshotId` | crates/freally-chunk/src/repository.rs:1920-1934 | The next id, never used by a row, spent in a commit of its own. |
| `Repositories.Repository.RecordInner` | crates/freally-chunk/src/repository.rs:1371-1406 | An id is allocated, then one row is committed under it, with the summary index in step. |
| `Repositories.Repository.SnapshotBytes` | crates/freally-chunk/src/repository.rs:833-850 | Files are stored in order and the row committed last; a failure commits no row. |
| `Repositories.Repository.RemoveSnapshots` | crates/freally-chunk/src/repository.rs:1185-1204 | Exactly the listed rows and summaries go, each counted once however often it is listed. |
| `Repositories.Repository.EditSnapshot` | crates/freally-chunk/src/repository.rs:1210-1232 | Only the named row changes and its summary is rewritten with it. |
| `Catalog.LoadAll` | crates/freally-chunk/src/repository.rs:1937-1946 | All rows, once each, in id order. |
| `Catalog.AllRowsMembers` | crates/freally-chunk/src/repository.rs:1937-1946 | The listing holds exactly the rows of the catalog. |
| `Catalog.SummaryShows` | crates/freally-chunk/src/repository.rs:227-262 | A summary shows the fields of its row, the number of its files, and the sum of their sizes. |
| `Verifier.VerifyFile` | crates/freally-chunk/src/repository.rs:1829-1882 | A file's damage in manifest order, with the whole-file check only when no chunk was flagged; a metadata lookup that fails stops the pass. |
| `Verifier.VerifyRows` | crates/freally-chunk/src/repository.rs:1816-1886 | The counters and the damage of exactly the rows selected; fails if and only if a metadata lookup fails. A damage is in the report if and only if a file of a selected row suffers from it, said in terms of the index and of `get`. |
| `Repositories.Repository.Verify` | crates/freally-chunk/src/repository.rs:1816-1886 | The report over the whole catalog or one snapshot, with the same if and only if; over one id it looks at that row alone, if it is there. |
| `Diagnosis.ReportExactly` | crates/freally-chunk/src/repository.rs:1816-1886 | At either level and for any selection: a damage is reported if and only if a file at that path of a selected snapshot with that id has a chunk that is missing from the index (Missing) or cannot be read (Corrupt, when reading), or can be read whole and has another digest. |
| `Diagnosis.MetadataReport` | crates/freally-chunk/src/repository.rs:1833-1842 | At the metadata level the report names exactly the references of selected snapshots that have no index row, as Missing. |
| `Diagnosis.NamedOnce` | crates/freally-chunk/src/repository.rs:1829-1867 | Each ailing reference of a file is named once, in manifest order. |
| `Verifier.CheckedSingle` | crates/freally-chunk/src/repository.rs:1819-1824 | A pass over one id looks at that row, once, if the catalog has it, and else at nothing. |
| `Verifier.CountersExact` | crates/freally-chunk/src/repository.rs:1825-1832 | The file and chunk counters are the numbers of files and of chunk references in the rows looked at. |
| `VerifyRepair.CleanIffRestorable` | crates/freally-chunk/src/repository.rs:1816-1886 | Every file materialises to bytes with its recorded digest if and only if a full read-data pass reports nothing and every recorded chunk length, which the pass does not look at, is the chunk's. |
| `VerifyRepair.MaterialiseIff` | crates/freally-chunk/src/manifest.rs:143-169 | Reading back succeeds exactly when every chunk is readable at its recorded length. |
| `VerifyRepair.NamedIffDamaged` | crates/freally-chunk/src/repository.rs:1893-1908 | A snapshot is named in a full report if and only if one of its files is damaged. |
| `VerifyRepair.RepairLeavesClean` | crates/freally-chunk/src/repository.rs:1893-1908 | However damaged the store, removing what a full report names and sweeping leaves nothing to report at that level. |
| `Repositories.Repository.RepairRemoveDamaged` | crates/freally-chunk/src/repository.rs:1893-1908 | A dry run changes nothing; otherwise exactly the named snapshots go, the sweep runs, and a full report at the same level is then empty. |
| `Replication.ProbeIffSameCapture` | crates/freally-chunk/src/repository.rs:1957-1981 | Two snapshots have the same probe exactly when kind, time, source key and files agree, whatever the id, annotations and codecs. |
| `Replication.ReplicationFaithful` | crates/freally-chunk/src/repository.rs:1057-1120 | A run between sound repositories succeeds; fingerprints become the union; copied plus skipped is the number of source snapshots; rows added are faithful copies with the destination's own codecs; nothing the destination had changes; chunks copied equal its index growth and bytes copied the growth of its texts; chunks copied plus present are the digests the added rows refer to. |
| `Replication.NothingLeftOut` | crates/freally-chunk/src/repository.rs:1078-1110 | Whatever the state of either store, after a run that succeeds each digest an added row refers to is indexed at the destination. |
| `Replication.SendFails` | crates/freally-chunk/src/repository.rs:1085-1097 | A chunk that has to be copied fails the run exactly as reading it from the source fails, with the destination as it was. |
| `Replication.EverySnapshotArrives` | crates/freally-chunk/src/repository.rs:1057-1120 | Every source snapshot is at the destination as the same capture, unless two fingerprints collide. |
| `Replication.CopiesRestoreTheSame` | crates/freally-chunk/src/repository.rs:1057-1120 | Every copied snapshot reads back, file by file, as it does at the source. |
| `Replication.RerunCopiesNothing` | crates/freally-chunk/src/repository.rs:1057-1120 | When each source snapshot is the same capture as some destination one, a run changes nothing and copies nothing, in any state of either store. |
| `Replication.SecondRunCopiesNothing` | crates/freally-chunk/src/repository.rs:1057-1120 | A second run copies no snapshot and no chunk, even after annotation edits on both sides. |
| `Replicator.CopyFiles` | crates/freally-chunk/src/repository.rs:1078-1097 | The transfer loop over files and chunks, with each digest sent or counted once in the whole run. |
| `Repositories.Repository.InsertFullSnapshot` | crates/freally-chunk/src/repository.rs:1133-1162 | All metadata kept under a freshly allocated id, summary in step. |
| `Repositories.Repository.ReplicateTo` | crates/freally-chunk/src/repository.rs:1057-1120 | The destination's store and catalog and the report are those of the run specified, failures included, for any destination, the repository itself and one that shares its store among them. |
| `Replicator.SelfCopiesNothing` | crates/freally-chunk/src/repository.rs:1057-1120 | A repository replicated into itself copies nothing and changes nothing. |
| `Unique.UniqueGrowth` | crates/freally-chunk/src/repository.rs:1601-1616 | Adding a list of chunks costs the bytes of the digests not there yet. |
| `Unique.FirstMention` | crates/freally-chunk/src/repository.rs:1601-1616 | A digest is counted with the length recorded where it is first mentioned. |
| `Unique.UniqueOrderFree` | crates/freally-chunk/src/repository.rs:1601-1616 | With one length per digest, unique bytes do not depend on order or repetition. |
| `Unique.UniqueAtMostEffective` | crates/freally-chunk/src/repository.rs:1601-1616 | On tiled manifests unique bytes never exceed effective bytes. |
| `Unique.EffectiveExactly` | crates/freally-chunk/src/repository.rs:1601-1616 | Effective bytes are the sum of the sizes of all files of all snapshots. |
| `Diff.DiffSnapshots` | crates/freally-chunk/src/diff.rs:80-208 | Each path once, in order, classified as the two sides say; the counters are the sizes of the four classes; bytes added equal unique bytes of both minus unique bytes of the first, and never exceed the per-file sum when paths are unique and equal file digests mean equal chunks. |
| `Diff.DiffShows` | crates/freally-chunk/src/diff.rs:112-186 | What each entry says: sizes on either side, and of a new version how many references, by place, the first snapshot lacks or has, and the bytes of those it lacks. |
| `Diff.LastCounts` | crates/freally-chunk/src/diff.rs:80-111 | Of files under one path the last one counts. |
| `Diff.DiffIsGrowth` | crates/freally-chunk/src/diff.rs:188-196 | The bytes a diff reports are what the second snapshot adds to the unique bytes of the first. |
| `Diff.AtMostPerFile` | crates/freally-chunk/src/diff.rs:112-196 | The repository-level cost is at most the sum of the per-file charges. |
| `Report.CurveStep` | crates/freally-chunk/src/report.rs:92-119 | One more snapshot, no earlier than the rest, extends a correct curve to a correct curve. |
| `Report.GrowthOf` | crates/freally-chunk/src/report.rs:72-119 | Strictly increasing days, one per day with a snapshot, each with the unique bytes and snapshot count of everything up to that day. |
| `Report.UpToExactly` | crates/freally-chunk/src/report.rs:72-119 | The totals of a day are over exactly the snapshots taken before the end of it. |
| `Report.ReportGrowth` | crates/freally-chunk/src/report.rs:72-119 | The curve of the catalog sorted by time and id, at midnights; it is empty only for an empty catalog, and its end equals the stats' unique bytes when each digest has one length. |
| `Report.ByTimeOrders` | crates/freally-chunk/src/report.rs:72-75 | Sorting by time, then id, orders the rows and loses none. |
| `Report.UniqueTotal` | crates/freally-chunk/src/repository.rs:1601-1616 | The unique and effective totals of a listing. |
| `AuditText.Utf8Injective` | crates/freally-audit/src/lib.rs:704-709 | Different texts have different bytes, so a chain step sees every change of text. |
| `AuditText.HexInjective` | crates/freally-audit/src/verify.rs:102-109 | Different digests print differently. |
| `AuditText.CefEscapeHeader` | crates/freally-audit/src/format.rs:494-506 | The header escaping loop computes character-wise escaping. |
| `AuditText.CefEscapeExtension` | crates/freally-audit/src/format.rs:509-523 | The value escaping loop computes character-wise escaping. |
| `AuditText.EscapeGuards` | crates/freally-audit/src/format.rs:509-523 | An escaped value holds no line end, and every equals sign in it follows a backslash. |
| `AuditPairs.PairsReadBack` | crates/freally-audit/src/format.rs:359-523 | Whatever the values hold, separators included, splitting an extension at its unescaped equals signs and undoing the escapes gives the pairs it was printed from. |
| `AuditPairs.HeaderReadBack` | crates/freally-audit/src/format.rs:494-506 | The same for a header and its fields. |
| `AuditPairs.TabsSplit` | crates/freally-audit/src/format.rs:567-650 | Splitting a LEEF extension at every tab gives its pairs if and only if no value holds a tab. |
| `AuditReadback.EventReadBack` | crates/freally-audit/src/format.rs:359-650 | Every record tells its event whole: for every event, whatever text its fields hold, and in both formats, reading the fields under the keys of its signature gives the event back. |
| `AuditReadback.RecordsDiffer` | crates/freally-audit/src/format.rs:359-650 | Equal records are of equal events and embed equal digests. |
| `AuditReadback.HeaderTells` | crates/freally-audit/src/lib.rs:248-300 | The header read back: product and version, and the signature, title and severity of each kind of event. |
| `AuditReadback.CefTells` | crates/freally-audit/src/format.rs:370-384 | The digest under its label, and an empty host and user where the event has none. |
| `AuditReadback.CefLabels` | crates/freally-audit/src/format.rs:385-481 | Each numbered slot of a CEF record carries the label of what it holds. |
| `AuditReadback.LeefTells` | crates/freally-audit/src/format.rs:550-565 | The digest, the severity and the signature as LEEF pairs, and an empty host and user where the event has none. |
| `AuditText.LinesSplit` | crates/freally-audit/src/verify.rs:82 | A terminated text and what follows it split into lines separately. |
| `AuditTamper.AtSlot` | crates/freally-audit/src/verify.rs:175-223 | Whatever is extracted from a record stands at its slot. |
| `AuditFormat.NthCefPipe` | crates/freally-audit/src/verify.rs:188-206 | Finds the n-th unescaped pipe, or reports that there is none. |
| `AuditFormat.PastEscaped` | crates/freally-audit/src/format.rs:494-506 | A pipe scan passes over escaped text without counting. |
| `AuditFormat.RecordIsOneLine` | crates/freally-audit/src/format.rs:359-368 | For every event and any text in it, a CEF or LEEF record ends in its only line end and is not blank. |
| `AuditFormat.ExtractUndoesFormat` | crates/freally-audit/src/verify.rs:175-223 | For every event and any text in it, extracting the hash from a CEF or LEEF record gives the hash that was embedded. |
| `AuditChain.ReadTailState` | crates/freally-audit/src/lib.rs:782-816 | The digest and length to resume from. |
| `AuditChain.VerifyChain` | crates/freally-audit/src/verify.rs:61-126 | The report over any file, with the counters adding up; it is ok exactly for accepted files. |
| `AuditChain.ReportCounts` | crates/freally-audit/src/verify.rs:82-124 | Each counter of the report is the number of lines with its verdict, by what a line embeds and the digest reached before it. |
| `AuditChain.FailedLines` | crates/freally-audit/src/verify.rs:82-124 | The failed lines are listed in order, from 1, and are exactly those with a wrong digest or none. |
| `AuditChain.AcceptedTail` | crates/freally-audit/src/lib.rs:782-816 | On an accepted file, resuming and verifying reach the same digest. |
| `AuditChain.RecordAccepted` | crates/freally-audit/src/lib.rs:510-543 | Appending a record to an accepted, terminated file adds one match and nothing else to the report, and the writer's digest is again the one to resume from. |
| `AuditSinks.AuditSink.constructor` | crates/freally-audit/src/lib.rs:417-488 | Opening any file resumes its chain and length. |
| `AuditSinks.AuditSink.Record` | crates/freally-audit/src/lib.rs:510-549 | One line appended, from which the event reads back, and the chain advanced; or the live file started over at the threshold; the sink stays in agreement with a file that verifies. |
| `AuditSinks.EveryRunVerifies` | crates/freally-audit/src/verify.rs:61-126 | For every run of records, verification counts exactly the records, matches all of them, and ends on the digest to resume from. |
| `AuditSinks.LogReadsBack` | crates/freally-audit/src/lib.rs:510-543 | The log of a run tells its history: one line for each event, in order, and each gives its event back. |
| `AuditSinks.WriteAll` | crates/freally-audit/src/lib.rs:417-549 | The same for a sink reopened at arbitrary points: file, in-memory digest and report. |
| `AuditTorn.HashStands` | crates/freally-audit/src/format.rs:359-650 | Where in a CEF or LEEF record the digest stands. |
| `AuditTorn.TornAlone` | crates/freally-audit/src/verify.rs:61-126 | A record cut anywhere at the end of an accepted file is reported as one match if its digest is whole, as nothing if nothing of it was written, and otherwise as one failed line, with its number. |
| `AuditTorn.RecordAfterTear` | crates/freally-audit/src/lib.rs:510-543 | The next record, glued to a torn one: one match exactly when nothing was written of the torn one or its digest and the separator after it were; otherwise one failed line, unless the bytes hashed for the torn one have the digest they start with. |
| `AuditTorn.RecordOnTorn` | crates/freally-audit/src/lib.rs:417-543 | The same for a sink opened on the torn file, and the file it leaves. |
| `AuditTorn.AppendedAccepted` | crates/freally-audit/src/verify.rs:82-124 | Appended to any terminated file, a record is accepted if and only if the file was and the record embeds the digest the file leads to. |
| `AuditTorn.SecondAfterTear` | crates/freally-audit/src/lib.rs:510-543 | After a glued line, and with the same reservation, another record of the same sink is accepted if and only if the tear was late and two byte strings, which differ, share a digest; a record of a sink opened anew exactly if the tear was late. |
| `AuditTamper.RedactionFaithful` | crates/freally-audit/src/lib.rs:725-741 | A record whose digest does not occur again after its slot redacts like no other record that embeds the same digest, whatever that other record holds. |
| `AuditTamper.RedactAlikeExactly` | crates/freally-audit/src/lib.rs:725-741 | Exactly when two different records that embed one digest redact alike: both hold it again after the slot, at different last places, each has zeros where the other has it, and they are equal elsewhere. |
| `AuditHistory.ReplacementDetected` | crates/freally-audit/src/verify.rs:82-124 | If a record whose digest does not occur again after its slot, followed by another record, is replaced by any other record and the file is still accepted, two different byte strings with one digest are exhibited. |
| `AuditHistory.ReplacementExactly` | crates/freally-audit/src/verify.rs:82-124 | Exactly which replacements go undetected when the two byte strings hashed do not collide: those by a twin. |
| `AuditHistory.TwinsUndetected` | crates/freally-audit/src/verify.rs:82-124 | Exchanging a record for its twin leaves the verifier's digest and report the same over the whole file, for every hash function. |
| `AuditHistory.SameDigestSameHistory` | crates/freally-audit/src/verify.rs:61-126 | Two accepted files that reach one digest hold the same records in the same order, up to twins, so that insertion, removal and reordering are detected too, unless bytes they hash collide or have the starting digest. |
| `AuditHistory.SameLastSameHistory` | crates/freally-audit/src/verify.rs:61-126 | The same for two accepted logs whose last records embed one digest; the records are equal when those of one log do not repeat their digest after the slot. |
| `AuditHistory.LastRecordUnprotected` | crates/freally-audit/src/verify.rs:82-124 | A replacement of the last record is accepted exactly when it embeds the same digest or is blank. |
| `AuditEchoes.SwappedPathsAreTwins` | crates/freally-audit/src/format.rs:359-650 | The failing input, as the writer prints it in CEF and in LEEF: a job-start record whose source path is the digest it embeds and whose destination is 64 zeros, and the same with the paths swapped, differ and redact alike. |
| `AuditEchoes.SwappedPathsUndetected` | crates/freally-audit/src/verify.rs:82-124 | After any file that has left the starting digest the two can be exchanged unnoticed, whatever follows and whatever the hash function. |
| `AuditEchoes.SwappedLogs` | crates/freally-audit/src/verify.rs:61-126 | Two whole logs that differ so, both accepted. |
| `AuditEchoes.LastRecordsDiffer` | crates/freally-audit/src/verify.rs:61-126 | Two different one-record logs, both accepted. |

## Left out

- redb, serde, zstd, FastCDC's gear tables and BLAKE3 themselves: their contracts are parameters.
- Power loss: the program flushes and does not sync, so only process death is a crash here.
- An append that writes part of its bytes, fails, and is followed by more writes in the same process, whose rows then name the wrong bytes; every other failure in place is a step of `Protocol`.
- Leases in `Repositories.Repository`: its methods are sequential; `Protocol` has the leases, and
  takes a delta-resume ingest (`crates/freally-chunk/src/manifest.rs:75-89`) as one step because
  the program runs it without a lease. The step may stop after any number of chunks or before the
  manifest is written; one that fails within a put is a recorder's failure, which has a step at
  each point of a put.
- Death in the middle of a multi-byte character of an audit record: the file is then not UTF-8, and
  neither opening nor verifying reads it. `AuditTorn` has every other tear.
- `record` with entries whose chunks are not in the store: in `Protocol` a recorder first touches them.
- Replication between repositories that others write to meanwhile.
- ChunkStores.ChunkStore.PutChunk: checks the index once, where the program checks again under the mutex; the second check is a step of `Protocol`.
- Repositories.Repository.Compact: the fraction is exact, where the program compares two doubles.
- FileIo.MaterialiseFile: gives the bytes or the error; the partly written output file is not modelled.
- FileIo.MaterialiseRangeOf: models a wrapped end as a failed buffer allocation; a debug build stops at the addition instead.
- FileIo.ChunkIntoStore: file sizes beyond 64 bits are not bounded.
- Chunking.ChunkReader: a read that fails, or a sink that fails in mid-stream; `FileIo.IngestReader` stores the pieces after the stream ends, which gives the same store and the same answer but not the reader's position when a put fails.
- Repositories.Repository.RecordInner: the display prefix is a parameter.
- Backend.ReadRange: interrupted reads and other I/O errors.
- Report.ReportGrowth: the per-kind and per-file tallies of the report, and times within a day of the 64-bit minimum.
- Physical size and disk usage in the stats, and every ratio taken as a floating-point number.
- Pruning policies, `plan_source_prune` and `select_for_pruning` (which is not part of this model); removal of a set of snapshots is modelled.
- AuditSinks.AuditSink.Record: rotation is a fresh start of the live file; the backup it renames is empty in this code, because the live file is truncated first (`crates/freally-audit/src/lib.rs:568-587`).
- CSV, Syslog and JSON-lines audit records: the first two do not keep one record on one line for arbitrary text, and a Syslog user or job id ending in `prevHash=` defeats the extractor; JSON needs its serialiser.
- WORM flags, the tracing layer, path handling, restore conflicts, keys, scheduling, the cloud and command-line crates, and the user interface.

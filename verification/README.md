# CifraSync: a verified model

CifraSync is a deduplicating backup tool. This project models its hard core in Dafny and proves what it promises.

- **Thread pool.** `TaskQueue` is the ring buffer with its critical sections; `PoolProtocol` makes every critical section,
  wakeup, task call, signal and broadcast one step of a transition system; `PoolSafety` and `PoolLiveness` prove exactly-once
  execution, drain, absence of lost wakeups and termination over all interleavings, and `PoolTeardown` says who may still be in
  the pool when it is freed.
- **Crypto stack.** `Sha256` and `Kdf` state FIPS 180-4, RFC 2104 and RFC 8018 as functions and prove the streaming and
  in-place implementations against them; `Sha256Constants` derives the constants of the hash from the primes, and
  `Sha256Vector` works out a known digest round by round; `Lru` and `KeyCache` are the cache of derived keys; `Cipher` seals and opens blobs.
- **Codec, chunks and manifests.** `Codec` is the run-length code, `Hashing` and `Chunker` name and cut chunks, `Manifest` is
  the growing list and `ManifestText` its printer and loader over `Text`.
- **Paths.** `Path` normalises and joins in NUL-terminated buffers, also in place; `RelativePath` takes a root off again.
- **Engine.** `Pipeline` is the way of a chunk into the store and back, `SnapshotText` the text of a `.snapshot` file and what is
  read out of it, `SnapshotRoundTrip` says when that is what was written and what its file is called, `Backup`, `Restore`, `RestoreTree`, `SnapshotStore` and `Prune` are the engine's loops over a `ChunkStore` and
  the directories, and `Repository` is the state machine of backups, prunes, server sessions and readers in
  which every effect on the file system is one step and any process may stop between two. `RepositorySafety` proves its
  invariant and for which runs every snapshot is complete in every state, `RepositoryRoundTrip` what a restore gives back after
  any run, and `RepositoryLimits` has the runs that end with an incomplete snapshot.
- **Sync.** `Framing` is the wire format over a stream that splits it anywhere and `Interleaving` the sender and the receiver at
  work at once; `SyncText`, `SyncServer` and `Sync` are the texts, the server and the client of a session, up to convergence of
  a whole run.
- **Formats.** `Formats` has the written forms of numbers, paths, codes, frames and texts character by character.

Hash collisions are a hypothesis over a finite set wherever they matter (`Hashing.NoCollision`, `KeyCache.NoCollision`): the
chunk contents of the run, or the passphrases of the history. For chunks it is a hypothesis on SHA-256 alone
(`Hashing.NoCollisionIsDigests`).

Parameters stand for what comes from outside: scanned files and their times, salt and nonce, the current time, the result of a
lock attempt, which files can be opened, created or written, and the amount each socket call moves.

Where the code departs from its documentation the model follows the code: `docs/02_wire_protocol.md` describes another framing
than `src/net/protocol.c`. Promises that the code does not keep in every case are stated with their exact condition and, but
for the long passphrase, with an input that breaks them:

- referential integrity (`RepositorySafety.IntactIffHarmless`), which four kinds of runs break even if every file can be opened:
  a backup under an id whose manifest an interrupted prune has left behind (`RepositoryLimits.LeftoverManifest`), a backup whose
  label or source path takes its `.snapshot` off the collector's list (`RepositoryLimits.LabelLosesChunks`,
  `RepositoryLimits.SourcePathLosesChunks`; the exact condition is `SnapshotText.ListsItselfIff`), a file whose path breaks its
  own manifest line (`RepositoryLimits.BreakingBackup`), and a sync session that stops after the server has written `.snapshot`
  and manifest and before the chunks have come (`RepositoryLimits.InterruptedSync`); a collector that cannot open a directory or
  a file removes chunks as well, which is part of the same condition;
- a restore into one tree, where entries of one place replace each other (`RestoreTree.GivesBackIff`,
  `RestoreTree.RootLosesFirst`);
- source paths with a tab in a sync session (`SyncText.HeaderRoundTrip`, `Sync.ArrivesHomeIff`, `Sync.TabWritesOver`);
- chunks stored raw (`Pipeline.RecoversExactly`, `Pipeline.RawChunkMisread`) and passphrases of more than 255 bytes, which backup
  shortens and restore does not (`Pipeline.RecoversWithGiven`);
- empty files in verify (`Restore.EmptyFileReportedMissing`) and paths in manifests (`ManifestText.PrintedLoads`);
- keys longer than the block counter can count (`Kdf.WholeKeyIff`, `Kdf.OneByteMoreNeverEnds`);
- paths that stop the server's scan (`SyncText.LineEndCanCatchScan`), the reply that drops a single hash
  (`Sync.OnlyUnheldReported`, `Sync.SingleChunkNeverArrives`), and a server without its lock (`Sync.ClosedServerKeepsNothing`);
- frames whose size does not go through an int (`Framing.WriteAll`, `Framing.ReadAll`, `Interleaving.TransferCompletes`);
- a root of "/" (`RelativePath.RelativeUndoesJoin`, `RelativePath.RootRecordsNames`) and the full snapshot list (`SnapshotStore.OpenAndFinish`,
  `SnapshotStore.FirstFullStore`);
- a pool that is freed while a submitter still owes its signal (`PoolTeardown.FreeIsSafeIff`, `PoolTeardown.LateSignal`).

## Model

| member | source | states |
|---|---|---|
| TaskQueue.RingContentsAre | src/util/thread_pool.c:248-249 | the slots between front and back of the ring, wrapped at its end, are exactly a given sequence when they agree slot by slot |
| TaskQueue.ThreadPool.Submit | src/util/thread_pool.c:317-347 | a submission appends the task to the queue and raises the pending count, or is refused, exactly when the function is null, the pool is shut down or `queue_size - 1` tasks are queued, and changes nothing |
| TaskQueue.TakesUpToLimit | src/util/thread_pool.c:324-345 | an open queue accepts as many submissions in a row as it has room for, in order, and then refuses every further one |
| TaskQueue.ThreadPool.WorkerPoll | src/util/thread_pool.c:235-250 | a worker that holds the mutex sleeps on an empty queue, exits when it is also shut down, and else removes the oldest task |
| TaskQueue.ThreadPool.FinishTask | src/util/thread_pool.c:256-261 | finishing a task lowers the pending count by one and reports when it reaches zero |
| TaskQueue.ThreadPool.BeginShutdown | src/util/thread_pool.c:370-372 | shutdown is set and the queue is left as it is |
| TaskQueue.ThreadPool.QueueSize | src/util/thread_pool.c:396-412 | the two-case subtraction of the indices is the length of the queue |
| PoolSafety.StepKeepsInv | src/util/thread_pool.c:231-387 | every step of every thread keeps the pool's invariant: FIFO hand-over within the limit, exactly-once execution, the pending count, the shutdown life cycle and no lost wakeup |
| PoolSafety.ReachableInv | src/util/thread_pool.c:231-387 | the invariant holds in every state reachable by any interleaving, spurious wakeups included |
| PoolLiveness.PendingIsUnfinished | src/util/thread_pool.c:257-261 | in every reachable state `pending_tasks` is the number of accepted tasks that are not finished |
| PoolLiveness.WaitReturnsWhenAllRun | src/util/thread_pool.c:349-361 | a waiter that looks at the counter returns if and only if as many tasks have finished as were accepted, and then every accepted task has been called exactly once and has finished |
| PoolLiveness.DestroyDrains | src/util/thread_pool.c:363-387 | when destroy has joined all workers no accepted task is unrun |
| PoolLiveness.NoTaskStranded | src/util/thread_pool.c:238-240 | while a task is queued some worker is awake or a signal is still owed, and while any worker sleeps every queued task is matched by a worker about to look or by an owed signal |
| PoolLiveness.QuiescentMeansDone | src/util/thread_pool.c:231-387 | a reachable state in which no thread can move by itself has every accepted task run, no signal owed and no caller of wait blocked, and the pool is either destroyed or has all its workers asleep |
| PoolLiveness.InternalStepFalls | src/util/thread_pool.c:231-387 | every step of the pool that is neither a call nor a spurious wakeup lowers a measure over queued tasks, running tasks, owed signals and live threads |
| PoolLiveness.RunsAreBounded | src/util/thread_pool.c:231-387 | in any run the pool's own steps number at most the initial measure plus a constant for each call or spurious wakeup |
| PoolLiveness.ShutdownTerminates | src/util/thread_pool.c:363-387 | after destroy was called a run of pool steps is at most as long as the measure, and when it cannot go on the pool is destroyed with every accepted task run |
| PoolTeardown.FreedPoolTouchedIff | src/util/thread_pool.c:374-387 | in every reachable state after destroy no worker is left and no waiter is blocked, and the pool's memory is touched again if and only if a submitter still owes its signal or a waiter has yet to look at the counter |
| PoolTeardown.FreeIsSafeIff | src/util/thread_pool.c:379-387 | the step that frees the pool is the last that touches it if and only if every submitter has sent its signal and every waiter has returned |
| PoolTeardown.LateSignal | src/util/thread_pool.c:340-346 | a run in which the submitter's signal is still owed when the pool has been destroyed with its task run |
| Bytes.XorRemask | src/crypto/kdf.c:180-188 | masking with `0x36` and then with `0x36 ^ 0x5c` is masking with `0x5c` |
| Bytes.XorBitsAt | src/crypto/kdf.c:180-188 | a bit of the exclusive or is set exactly when the two operands differ there |
| Bytes.OrOfXorIsZero | src/crypto/cipher.c:22-28 | or-ing a difference into the accumulator leaves zero exactly when there has been no difference |
| Bytes.BigEndianRoundTrip | src/net/protocol.c:10-22 | a number below 256^n is read back from its n big-endian bytes |
| Bytes.BigEndianAt | src/net/protocol.c:10-14 | byte i from the front of n big-endian bytes is the digit of weight 256^(n - 1 - i) |
| Bytes.LittleEndianAt | src/crypto/cipher.c:16-20 | byte i of the little-endian bytes is the digit of weight 256^i |
| Bytes.FromLittleEndianInjective | src/crypto/cipher.c:16-20 | little-endian bytes are determined by the number they spell |
| Sha256.PadZerosIsLeast | src/crypto/kdf.c:142-153 | the number of padding zeros is the least one that fills the last block, as section 5.1.1 of FIPS 180-4 asks |
| Sha256.LengthFieldExact | src/crypto/kdf.c:127-154 | for messages shorter than 2^61 bytes the wrapped bit counter is the exact length |
| Sha256Constants.RoundConstants | src/crypto/kdf.c:18-35 | the 64 round constants are the first 32 bits behind the point of the cube roots of the first 64 primes (section 4.2.2 of FIPS 180-4), as inequalities between cubes of whole numbers |
| Sha256Constants.FirstPrimes | src/crypto/kdf.c:18-35 | the list used there holds all primes below 312 and nothing else, in order |
| Sha256Constants.InitialHashValue | src/crypto/kdf.c:107-115 | the initial hash value are those bits of the square roots of the first eight (section 5.3.3) |
| Sha256Vector.DigestOfAbc | src/crypto/kdf.c:58-161 | the digest of "abc" is ba7816bf...f20015ad, worked out schedule word by word and round by round |
| Sha256.Context.Transform | src/crypto/kdf.c:58-105 | one call replaces the chaining value by the compression function of section 6.2.2 of FIPS 180-4 applied to the buffer |
| Sha256.Context.Update | src/crypto/kdf.c:121-140 | an update of any size appends its data to what has been absorbed and keeps the buffer, chaining and length invariants |
| Sha256.Context.Final | src/crypto/kdf.c:142-161 | final writes the standard's digest of everything absorbed |
| Sha256.DigestOfPieces | src/crypto/kdf.c:107-161 | the digest of a message does not depend on how it is split into updates |
| Kdf.RemaskBlock | src/crypto/kdf.c:180-190 | masking the inner key block in place a second time gives the outer key block |
| Kdf.HmacContext.constructor | src/crypto/kdf.c:163-193 | initialisation, for keys of every length, leaves the two contexts primed with the key block under the two pads of section 2 of RFC 2104 |
| Kdf.HmacContext.Update | src/crypto/kdf.c:195-197 | an update appends to the authenticated text |
| Kdf.HmacContext.Final | src/crypto/kdf.c:199-205 | final writes the MAC of section 2 of RFC 2104 over all updates |
| Kdf.HmacIs | src/crypto/kdf.c:163-205 | the MAC is the digest of the key block under 0x5c and the digest of the key block under 0x36 and the text, the key block being the key, or its digest when longer than 64 bytes, with zeros behind |
| Kdf.HmacSha256 | src/crypto/kdf.c:219-229 | the one-shot MAC is the standard's even when the output overwrites the input |
| Kdf.DeriveBlock | src/crypto/kdf.c:296-319 | the loop over rounds with its in-place `u` accumulates the block function F of section 5.2 of RFC 8018 |
| Kdf.RoundsAre | src/crypto/kdf.c:296-319 | the first value of a block is the HMAC of the salt and the four bytes of the block number, highest first, each later one that of the one before, and byte by byte they are added up by exclusive or |
| Kdf.DerivedKeyAt | src/crypto/kdf.c:296-325 | byte i of the derived key is byte i % 32 of block i / 32 + 1 |
| Kdf.LoopEndsIff | src/crypto/kdf.c:296 | the 32-bit block counter leaves its loop if and only if the block count is not the largest 32-bit number |
| Kdf.WholeKeyIff | src/crypto/kdf.c:287-325 | the loop ends with the whole key written if and only if the length is at most (2^32 - 2) * 32, the block count being wrapped at 2^64 and cut to 32 bits |
| Kdf.OneByteMoreNeverEnds | src/crypto/kdf.c:287-296 | for a key one byte longer than that the loop never ends |
| Kdf.OneBlockMoreIsEmpty | src/crypto/kdf.c:287-296 | for a key of 2^32 blocks it ends at once and nothing is written |
| Kdf.WrittenIsFront | src/crypto/kdf.c:321-324 | the blocks that are written, the last one cut short, are the front of the key of section 5.2 of RFC 8018 |
| Kdf.Pbkdf2 | src/crypto/kdf.c:275-331 | for every round count and every output length the loop ends exactly as said above; the derived key of section 5.2 of RFC 8018 is then written as far as the block count reaches, the rest of the buffer is left alone, and up to (2^32 - 2) * 32 bytes that is the whole key |
| Lru.RecentDistinct | src/crypto/key_cache.c:73-115 | the list of recent uses holds every used element once |
| Lru.RecentByLastUse | src/crypto/key_cache.c:111-112 | the list of recent uses is in the order of the last use |
| Lru.HitTracks | src/crypto/key_cache.c:90-112 | stamping a held entry with a new tick moves it to the front of the recency order |
| Lru.MissTracks | src/crypto/key_cache.c:14-28 | filling the first free entry, or the one with the oldest tick, keeps the entries the most recently used ones |
| KeyCache.ServedIsDirect | src/crypto/key_cache.c:97-112 | a cached key serves a request only if it is the key derived directly, when no two passphrases of the history share a hash |
| KeyCache.KeyCache.PickVictim | src/crypto/key_cache.c:14-28 | the victim is an unused entry, or all are used and none was stamped earlier |
| KeyCache.KeyCache.Reset | src/crypto/key_cache.c:47-56 | a reset empties the cache and starts a new history |
| KeyCache.KeyCache.HoldsMostRecent | src/crypto/key_cache.c:73-115 | after any run of derives and resets the cached keys are exactly those of the min(capacity, distinct) most recently used ids, each held once |
| KeyCache.KeyCache.Derive | src/crypto/key_cache.c:73-115 | the key returned is the direct derivation when no two passphrases of the history collide, and the request becomes the most recent one |
| Cipher.ParsedSizeIsExact | src/crypto/cipher.c:77-80 | the size test, whose sum wraps at 2^64, admits only the blob whose plaintext is shorter by the overhead |
| Cipher.SealedIsBlob | src/crypto/cipher.c:30-40 | byte i of the ciphertext is byte i of the plaintext masked with byte i % 32 of the HMAC, under the encryption key, of the nonce and the eight little-endian bytes of i / 32; in front stand "CSENC001", version 2, 600000 rounds, the size, salt and nonce, and behind the HMAC of all that under the MAC key; the two keys are the HMACs of "enc-key" and "mac-key" under the derived key |
| Cipher.OpensIff | src/crypto/cipher.c:183-249 | a blob opens to a plaintext if and only if it has that form, for the salt, nonce and rounds, any but 0, that are in it |
| Cipher.ParsesIff | src/crypto/cipher.c:64-85 | a header is accepted if and only if mark, version and size are right, and it is read as it lies in the blob |
| Cipher.MaskInputsDiffer | src/crypto/cipher.c:30-40 | two blocks of one blob are masked with the HMACs of different inputs, and its two keys are the HMACs of different labels |
| Cipher.OpenSealed | src/crypto/cipher.c:99-249 | opening a sealed blob gives back the plaintext for every passphrase, plaintext, salt and nonce |
| Cipher.OpensElsewhereIff | src/crypto/cipher.c:183-249 | a blob sealed under one passphrase opens under another if and only if the other's tag over it is the tag it carries |
| Cipher.OpensOnlySealed | src/crypto/cipher.c:183-249 | a blob that opens is byte for byte the sealing of its plaintext under its own header |
| Cipher.ConstantTimeEqual | src/crypto/cipher.c:22-28 | the accumulated difference is zero exactly for equal inputs |
| Cipher.MaskPiece | src/crypto/cipher.c:156-163 | a piece is masked with the keystream block of its own offset, the last one cut short |
| Cipher.MaskAndTag | src/crypto/cipher.c:156-166 | masking and authenticating 32 bytes at a time leaves the whole ciphertext in the blob and in the MAC |
| Cipher.Seal | src/crypto/cipher.c:99-181 | sealing fails exactly when the blob does not fit, and else writes header, ciphertext and the one-shot tag over both, byte for byte as in `SealedIsBlob` |
| Cipher.Open | src/crypto/cipher.c:183-249 | opening succeeds exactly for blobs of that form with the right tag whose plaintext fits, and writes that plaintext |
| Codec.RoundTrip | src/compress/codec.c:76-152 | decompressing what was compressed gives back every input |
| Formats.DecodesIff | src/compress/codec.c:115-152 | a code is well-formed if and only if its length is even and no count is zero |
| Formats.DecodesPair | src/compress/codec.c:115-152 | a count and a byte in front of a code put that many of the byte in front of what it stands for |
| Codec.GreedyAtMostDouble | src/compress/codec.c:42-54 | the compressed form is at most twice as long as the input |
| Codec.GreedyIsShortest | src/compress/codec.c:76-113 | no code that decodes to the same data is shorter than the compressor's |
| Codec.RleCompress | src/compress/codec.c:76-113 | the loop writes the greedy code, or reports exactly that it does not fit the buffer |
| Codec.RleDecompress | src/compress/codec.c:115-152 | the loop writes what the code stands for, and fails exactly for malformed codes and for output beyond the capacity |
| Codec.CompressAlloc | src/compress/codec.c:184-221 | the bound on the compressed size is always enough, so compression fails only when twice the input overflows a size_t |
| Codec.DecompressAlloc | src/compress/codec.c:223-275 | the first pass finds exactly the size of the output, and decoding fails exactly for malformed codes and sizes beyond a size_t |
| Hashing.HexInjective | src/delta/hash.c:22-38 | different digests never print alike |
| Hashing.HashHexIsHex | src/delta/hash.c:64-94 | every chunk name passes the hexadecimal check |
| Formats.NameOfChunk | src/delta/hash.c:22-38 | characters 2i and 2i + 1 of a chunk name are the high and the low digit of byte i of the SHA-256 digest, in lower case |
| Hashing.NoCollisionIsDigests | src/delta/hash.c:22-38 | on any set of byte strings the names have no collision if and only if the SHA-256 digests have none |
| Hashing.BytesToHex | src/delta/hash.c:22-38 | the loop prints two digits for every byte |
| Chunker.SlicesCover | src/delta/chunker.c:74-97 | the visits lie side by side from the start of the input to its end, none is longer than the chunk size, each carries the hash of the bytes it covers, and only an empty input has an empty one |
| Chunker.SliceAt | src/delta/chunker.c:74-97 | the i-th visit starts at i times the chunk size and covers that many bytes or all that are left |
| Chunker.EstimateIsExact | src/delta/chunker.c:30-38 | the estimated count is the number of visits if and only if the input is not empty and the sum does not wrap at 2^64 |
| Chunker.ChunkBuffer | src/delta/chunker.c:40-100 | the loop makes exactly those visits in order, and its 64-bit offset wraps behind the last of them if and only if the chunks' full sizes add up to 2^64 or more |
| Chunker.DefaultWrapsIff | src/delta/chunker.c:72 | with the engine's chunk size that is so for inputs of more than 2^64 less a chunk size, and for no others |
| Path.NormalizeIsCanonical | src/common/path.c:21-76 | the collapsing loop produces the one spelling determined by whether the path is rooted and by its components |
| Path.SameMeaning | src/common/path.c:21-76 | two paths normalise alike if and only if they have the same root and components, the empty path and "." counting as one |
| Path.NormalizeIdempotent | src/common/path.c:78-95 | normalising again changes nothing |
| Path.JoinConcatenates | src/common/path.c:97-143 | the joined path is rooted like the left one and its components are the left's followed by the right's, for all inputs |
| Path.CopyNormalized | src/common/path.c:21-76 | the loop writes the normal form or fails exactly when it does not fit, also when it overwrites its own input |
| Path.NormalizeInPlace | src/common/path.c:84-95 | normalising in place gives the same text as normalising into a separate buffer |
| Path.JoinInto | src/common/path.c:97-143 | joining succeeds exactly when the source's size tests pass and leaves the joined path in the buffer |
| Path.HasParentReference | src/common/path.c:214-239 | the scan reports exactly whether one of the components is ".." |
| Formats.PathInText | src/common/path.c:21-76 | both separators, one or several, part two names, and none in front or behind adds a name |
| Formats.NormalInText | src/common/path.c:21-76 | the normal form has "/" between the names |
| RelativePath.RelativeUndoesJoin | src/core/engine.c:179-209 | taking the root off a joined path gives back the normalised relative path if and only if the root is not "/" or the path is a single name |
| RelativePath.RootRecordsNames | src/core/engine.c:179-209 | under the root "/" every path is recorded as its last name alone |
| RelativePath.MakeRelativePath | src/core/engine.c:179-209 | the buffer version computes that relative path and fails exactly when one of the three normal forms does not fit |
| Text.ParsePrinted | src/delta/manifest.c:225-230 | a printed unsigned 64-bit number is read back by strtoull |
| Text.ParsePrintedSigned | src/delta/manifest.c:225 | a printed signed 64-bit number is read back by strtoll |
| Formats.NumbersFromText | src/delta/manifest.c:347 | a number is read behind spaces and a sign, up to the first character that is no digit |
| Manifest.WithFileKeeps | src/delta/manifest.c:126-157 | adding a file keeps the totals equal to the sums over the entries modulo 2^64 |
| Manifest.WithChunkKeeps | src/delta/manifest.c:159-185 | adding a chunk keeps the totals equal to the sums over the entries modulo 2^64 |
| Manifest.AcceptedIff | src/delta/manifest.c:58-66 | a path is refused if and only if it is empty, starts with "/" or has ".." among its names |
| Manifest.AcceptedIs | src/delta/manifest.c:126-157 | otherwise it stands behind the files that are there, whole up to 4095 characters, and its size is added |
| Manifest.WithChunkIs | src/delta/manifest.c:159-185 | a chunk is refused if and only if its name is empty or has a character that is no hexadecimal digit; otherwise it comes last in its file, and adding it is adding the file with it |
| Manifest.Manifest.EnsureFileCapacity | src/delta/manifest.c:10-32 | growing the array to 8 or to twice its length loses no entry |
| Manifest.Manifest.AddFile | src/delta/manifest.c:126-157 | a path is refused exactly when it is empty, absolute or has a ".." component; else one entry is appended and the total raised |
| Manifest.Manifest.AddChunk | src/delta/manifest.c:159-185 | a name that is not hexadecimal is refused; else one chunk is appended to the given file only |
| Manifest.Manifest.AppendFileFromBuffer | src/delta/manifest.c:187-222 | the new entry lists exactly the chunker's slices of the data and earlier entries stay |
| ManifestText.LoadMisfit | src/delta/manifest.c:322-349 | a file whose line does not fit is never read back: the load fails or the entry has another path |
| ManifestText.TabFreeLoads | src/delta/manifest.c:286-391 | without tabs in its paths a printed manifest loads to what was printed, or not at all when a file does not fit its line |
| ManifestText.BrokenLineLoads | src/delta/manifest.c:322-380 | a path with the right line ends and tabs makes the loader take the file for another one with a chunk in front that nobody recorded |
| ManifestText.PrintedLoads | src/delta/manifest.c:224-391 | loading a printed manifest gives back files, chunks and totals if and only if no path has a tab or line end and every FILE line fits the 1024-byte buffer up to its third tab |
| Formats.ManifestAsText | src/delta/manifest.c:224-270 | the text of a manifest of one file with one chunk, character by character |
| ManifestText.Write | src/delta/manifest.c:240-270 | the loops print the manifest's text |
| ManifestText.Load | src/delta/manifest.c:286-391 | the line loop with its cursor builds exactly what the text says, or fails at the first bad line |
| Pipeline.RecoversExactly | src/core/engine.c:237-262 | restoring with the same passphrase gives back a chunk if and only if it was stored compressed or is not a run-length code for other bytes of the same length |
| Pipeline.StoredForms | src/core/engine.c:237-262 | without a passphrase the blob is the chunk or a code for it; with one that is what the cipher opens it to |
| Pipeline.RecoversWithGiven | src/core/engine.c:1415-1418 | with one passphrase given to backup and restore a chunk comes back under the same condition as long as it has at most 255 bytes; a longer one opens it if and only if its tag coincides with that of its first 255 bytes |
| Pipeline.RawChunkMisread | src/core/engine.c:425-437 | the chunk 2, 7 stored uncompressed is restored as 7, 7 |
| Pipeline.StoredIsNotEmpty | src/storage/chunk_store.c:108-114 | the store's refusal of empty data never meets a non-empty chunk |
| ChunkStore.ChunkStore.Put | src/storage/chunk_store.c:108-125 | a non-empty blob is stored under its hash and nothing else changes |
| ChunkStore.ChunkStore.Get | src/storage/chunk_store.c:127-144 | a stored blob is returned, and any other hash is an error |
| Restore.RestoredIff | src/core/engine.c:374-456 | a chunked file is restored byte for byte if and only if each of its non-empty chunks is stored and comes back as the bytes it was cut from |
| Restore.ChunkedStaysInside | src/core/engine.c:439 | no list of chunks whose ends are below 2^64, as the chunker's are, passes the wrapped test with a chunk that lies outside |
| Restore.RestoreFile | src/core/engine.c:374-456 | the loop assembles the file in a zeroed buffer of its size and fails exactly when a chunk is missing, does not open, has another size or lies outside; it goes astray exactly when the file is not empty and the first chunk that lies outside passes the test because its end wraps at 2^64 |
| Restore.TallyIff | src/core/engine.c:691-769 | verify counts every file and chunk once and adds to no error counter if and only if every chunk is intact |
| Restore.TalliedExactly | src/core/engine.c:691-769 | verify raises the number of missing chunks by the entries that are not in the store, that of corrupt ones by the entries that are there and do not open, under the passphrase, to bytes of that hash, and the two totals by all files and entries |
| Restore.VerifySnapshot | src/core/engine.c:691-769 | the nested loops raise the four counters exactly so |
| Restore.VerifyAgreesWithRestore | src/core/engine.c:374-456 | without colliding chunks verify adds to no error counter if and only if restore reproduces every file and, when there is an empty file, the chunk of its empty hash checks out |
| Restore.EmptyFileReportedMissing | src/core/engine.c:709-713 | an empty file is restored but verify reports its chunk missing, since backup stores none |
| RestoreTree.OutputDir.WriteFile | src/core/engine.c:356-372 | a file is written at the place its path names unless that place is a directory, or a file stands where a directory is needed; then nothing changes |
| RestoreTree.PlaceIs | src/core/engine.c:356-372 | a path without "." leads through its names in their order |
| RestoreTree.DotsGoNowhere | src/core/engine.c:356-372 | a "." within a path changes nothing, and at its end it leaves no file to write |
| RestoreTree.OutputDir.RestoreFiles | src/core/engine.c:1587-1592 | the loop restores file after file into the tree up to the first that fails, and reports whether all were done |
| RestoreTree.RestoreCompletesIff | src/core/engine.c:1587-1592 | all files are done if and only if each can be restored and no path leads to a directory, or through a file, of another path or of what was there before |
| RestoreTree.GivesBackIff | src/core/engine.c:1538-1610 | afterwards every file is there with its data if and only if all are done and the last file of each place is restored to the data of all files of that place |
| RestoreTree.GivesBackApartIff | src/core/engine.c:1538-1610 | files that can each be restored are all given back if and only if no path stands in the way of another and no two with different data go to one place |
| RestoreTree.RootLosesFirst | src/core/engine.c:179-209 | of two files of one name in different directories, backed up from the source "/", both are recorded under that name, the restore completes, and only the second is there |
| RestoreTree.TwoOfOneName | src/core/engine.c:179-209 | "/a/f" and "/b/f" are both recorded as "f" |
| Backup.Backup.ChunkVisit | src/core/engine.c:211-286 | a visit appends the chunk's entry and stores its blob unless it is empty, a dry run or already stored |
| Backup.Backup.ScanVisit | src/core/engine.c:288-339 | a scanned file becomes one manifest entry, every non-empty piece of it is in the store, no old blob changes and nothing else is added; unreadable and refused files end the backup without effect; a file so large that the chunker's offset wraps is told apart |
| RepositorySafety.TextLoads | src/core/engine.c:1500-1515 | the manifest a backup publishes loads to exactly the scanned files if and only if each of them fits its manifest line |
| RepositorySafety.MentionedArePieces | src/core/engine.c:530-579 | what the collector finds mentioned in such a manifest are exactly the names of the 1 MiB pieces of the scanned files |
| RepositorySafety.NeedsArePieces | src/core/engine.c:288-339 | when no path has a tab, every chunk a published manifest needs is one the backup has stored, whether or not the files fit their lines |
| RepositorySafety.RemoveKeepsIntegrityIff | src/core/engine.c:530-579 | removing a chunk keeps every snapshot complete if and only if no manifest beside a `.snapshot` needs it |
| RepositorySafety.UnmentionedIsUnneeded | src/core/engine.c:530-579 | a collector whose list has every `.snapshot` with a manifest, and that can open those manifests, removes no chunk that one of them needs |
| RepositorySafety.PublishKeepsIntegrityIff | src/core/engine.c:1501-1515 | publishing a manifest beside its `.snapshot` keeps referential integrity if and only if everything the loader needs for it is stored |
| RepositorySafety.CreateKeepsIntegrityIff | src/core/engine.c:1487-1489 | a new `.snapshot` file keeps referential integrity if and only if a manifest left under its id has all its chunks |
| RepositorySafety.StepKeepsInv | src/core/engine.c:882-909 | every step of backup, prune, sync server, restore and verify, and a stop at any point, keeps the repository's invariant: writers are alone, blobs lie under the hash of what they were made from, and manifests say what was scanned; the lists of prune and collector are what the texts of the `.snapshot` files that can be seen and opened give |
| RepositorySafety.ReachableIsSound | src/core/engine.c:1380-1536 | the invariant holds in every reachable state of any interleaving, for every path the manifest accepts, every label and source path, and every reuse of ids |
| RepositorySafety.StepIntegrityIff | src/core/engine.c:1475-1515 | from a state in which every snapshot is complete a step leads to one if and only if it writes no `.snapshot` over a manifest whose chunks are not all stored, no manifest before its chunks, and removes no needed chunk that no manifest on the collector's list mentions |
| RepositorySafety.IntactIffHarmless | src/core/engine.c:1380-1536 | over whole runs from the empty repository: every name with both a `.snapshot` and a `.manifest` has all its non-empty chunks in every state of the run if and only if every step of it is such a step |
| RepositorySafety.CarefulIsHarmless | src/core/engine.c:1475-1515 | such steps are: a `.snapshot` under a name that has one already or has no manifest, a manifest without tabs in its paths whose pieces are stored (backup stores its pieces first), and, while every `.snapshot` leads back to itself and is on the collector's list, a removal by a collector that can open all manifests |
| RepositorySafety.CarefulKeepsTidy | src/core/engine.c:1487-1492 | every `.snapshot` leads back to itself, and is on the list of every collector, as long as labels and source paths are such that the id reads back and a collector can open the files it lists |
| RepositorySafety.CarefulRunIntact | src/core/engine.c:1380-1536 | a run of steps that meet these conditions on name, label, source path, recorded paths and files that open is complete in every state |
| RepositorySafety.ReadersSeeNoChange | src/core/engine.c:1557-1610 | while a restore, a verify or the client's side of a sync holds the shared lock no step of any process changes the repository |
| RepositoryLimits.LeftoverManifest | src/core/engine.c:893-904 | a prune that stops between its two deletions, a later one that collects, and a backup under the same id lead from an empty repository to a `.snapshot` with a manifest but without its chunk |
| RepositoryLimits.UnlistedBackup | src/core/engine.c:582-602 | one completed backup whose `.snapshot` does not lead back to itself, followed by a prune that deletes nothing and can open every file, is a snapshot with a manifest but without its chunk |
| RepositoryLimits.LabelLosesChunks | src/cli/parser.c:158-162 | so is a backup with a label in which a line end, "id=" and an id of another file name, or none, stand at the end |
| RepositoryLimits.SourcePathLosesChunks | src/storage/snapshot_store.c:192 | so is a backup, without any line end, of a source path with "id=" and such an id behind its first 499 characters |
| RepositoryLimits.BreakingBackup | src/core/engine.c:306-317 | one backup of one empty file of a certain name is a snapshot whose manifest loads and needs a chunk that was never stored, for any chunk name |
| RepositoryLimits.InterruptedSync | src/net/server.c:504-524 | a session that stops after the server has written both artifacts of a snapshot leaves it without its chunks |
| RepositoryRoundTrip.RestoreAfterAnyRun | src/core/engine.c:374-456 | after any run and for every manifest that is there: it loads to the scanned files in order if and only if they fit their lines; a file whose blobs were sealed under the passphrase is restored to the bytes scanned if and only if each of its non-empty chunks is stored and was first stored compressed or is not ambiguous; and no file is restored with a chunk that is missing or whose tag the passphrase does not meet |
| RepositoryRoundTrip.IntactIsStored | src/core/engine.c:402-405 | in a state in which every snapshot is complete no chunk of a listed snapshot whose files fit their lines is missing |
| RepositoryRoundTrip.EachFileComesBack | src/core/engine.c:374-456 | in such a state, written under one given passphrase of at most 255 bytes, the manifest loads and every file by itself is restored, and to the bytes scanned if and only if none of its chunks was first stored raw and is ambiguous |
| RepositoryRoundTrip.WholeSnapshotComesBack | src/core/engine.c:1538-1610 | in such a state, written under one given passphrase of at most 255 bytes, the manifest loads, and restoring into any directory tree completes and gives back every source if and only if no recorded path stands in the way of another or of what is there, sources recorded under one place are alike, and no chunk of the last of them was first stored raw and is ambiguous |
| RepositoryRoundTrip.PublishedStays | src/core/engine.c:1511-1514 | a published manifest stays as it was published until it is deleted or a backup or a server writes one under the same id |
| RepositoryRoundTrip.DatedBackupLeavesOthers | src/core/engine.c:1487-1515 | no step of a backup under an id of the form that the program makes touches the `.snapshot` or the manifest of another such id, or a stored chunk |
| SnapshotText.LoadSnapshot | src/storage/snapshot_store.c:182-203 | the loop over 511-character pieces of lines reads what the specification says, all six fields, later lines overriding earlier ones |
| SnapshotRoundTrip.ReadsBackIff | src/storage/snapshot_store.c:182-203 | a record is read back whole, with id, time, source path, label, file count and size, if and only if label and source path have no line end, the source path has at most 499 characters and the file count fits a signed 64-bit number |
| SnapshotRoundTrip.WrittenIsListed | src/storage/snapshot_store.c:164-217 | the listing gives back such records as they were written, so with the times by which prune sorts |
| Formats.SnapshotAsText | src/storage/snapshot_store.c:310-315 | the text of a `.snapshot`, character by character |
| SnapshotRoundTrip.NameIs | src/storage/snapshot_store.c:54-78 | in the file name of an id letters, digits, "-", "_" and "." stand for themselves, and every other character becomes "-" |
| SnapshotRoundTrip.PlainIdIsName | src/storage/snapshot_store.c:54-78 | an id of such characters is its own file name |
| SnapshotRoundTrip.DatedNamesDiffer | src/util/time_utils.c:72-89 | two ids of the form that the program makes have the same file name only if they are the same |
| SnapshotRoundTrip.DatedFileLeavesOthers | src/storage/snapshot_store.c:270-324 | so a file written for one of them leaves those of all others as they were |
| SnapshotRoundTrip.DatedIsVisible | src/storage/snapshot_store.c:170-171 | the listing sees the files of such ids |
| Formats.DoubleExtensionIsUnseen | src/storage/snapshot_store.c:170-171 | a file with ".snapshot" in its name a second time is not seen |
| SnapshotText.LastIdIsRead | src/storage/snapshot_store.c:189-190 | the id read from a text is the last one among those of its pieces that start with "id=" |
| SnapshotText.ReadIdOfPrinted | src/storage/snapshot_store.c:310-315 | a printed `.snapshot` is listed under the last id that its source path and label bring in, or its own when they bring in none |
| SnapshotText.ListsItselfIff | src/storage/snapshot_store.c:170-214 | the listing leads from a printed `.snapshot` back to its file if and only if the file name can be seen and that last id has the same file name |
| SnapshotText.PlainSourceQuietIff | src/storage/snapshot_store.c:186-194 | a source path without a line end brings in no id if and only if none of its pieces, which start at characters 499, 1010, ..., starts with "id=" |
| SnapshotText.MarkTakesId | src/storage/snapshot_store.c:313 | a label with a line end and "id=" behind it takes its snapshot to that id, or off the list when there is none |
| SnapshotText.SourceTakesId | src/storage/snapshot_store.c:312 | so does a source path with "id=" behind its first 499 characters |
| SnapshotText.ListsExactly | src/storage/snapshot_store.c:164-217 | when every `.snapshot` leads back to itself and can be opened, the listing leads to every file and nowhere else |
| SnapshotStore.WithoutFirstExact | src/storage/snapshot_store.c:424-430 | without repeated ids the removal takes out exactly that id and keeps the order |
| SnapshotStore.NamesRead | src/storage/snapshot_store.c:164-217 | in whatever order the directory yields its files, the file names of the listed ids are those of the ids read from the files that can be seen and opened |
| SnapshotStore.CapacityIsLeast | src/storage/snapshot_store.c:206-213 | the capacity that the doubling reaches is the least 128 * 2^k that holds the snapshots found |
| SnapshotStore.OpensFullIff | src/storage/snapshot_store.c:206-213 | the list is full when the store has been opened if and only if 128, 256, 512, ... named snapshots were found |
| SnapshotStore.SnapshotStore.constructor | src/storage/snapshot_store.c:221-257 | opening lists, in the directory's order, what is read from every file that can be seen and opened and has an id, in an array of exactly that capacity |
| SnapshotStore.SnapshotStore.Create | src/storage/snapshot_store.c:270-324 | the text is written under the id's file name (`SnapshotRoundTrip.NameIs`) if the file can be opened, but the list takes the entry only while it has room |
| SnapshotStore.SnapshotStore.Update | src/storage/snapshot_store.c:361-400 | an update of an id that is not listed fails and changes nothing; where the file cannot be opened it fails with the list changed already |
| SnapshotStore.SnapshotStore.Delete | src/storage/snapshot_store.c:402-434 | a listed id with a file under its file name loses both, the later entries moving down; anything else fails and changes nothing |
| SnapshotStore.FinishBackup | src/core/engine.c:1487-1536 | the backup reports success in every case; the manifest is published exactly when no step failed and the list had room for the new snapshot or already had its id, and the `.snapshot` keeps its first text, without counts, when the update failed |
| SnapshotStore.OpenAndFinish | src/core/engine.c:1457-1536 | a backup that opens the store on what the directory yields publishes its manifest, no step failing, if and only if the number of snapshots listed is none of 128, 256, 512, ... or its id is among them; it reports success in every case |
| SnapshotStore.FirstFullStore | src/storage/snapshot_store.c:247-248 | of the directories with up to 128 named snapshots exactly those with 128 are full |
| Prune.ExchangeSort | src/core/engine.c:870-880 | the exchange sort leaves a rearrangement of the snapshots in the order of time |
| Prune.DoomedExactly | src/core/engine.c:882-892 | a snapshot goes if and only if it is not among the `keep_count` last in the order of time and, when an age is given, is older; the next four rows say it in terms of the options |
| Prune.AgeDecides | src/core/engine.c:846-892 | with an age of days > 0 that reaches back to a time after 0: a snapshot goes if and only if its time is below now - days * 86400 and at least `keep_last` others stand behind it in the order of time |
| Prune.CountDecides | src/core/engine.c:846-892 | without an age, or with one of at most 0 days, exactly all but the last `keep_last` go, and all but the last seven without a count, or with 0 |
| Prune.NothingDoomed | src/core/engine.c:846-892 | a negative count, or an age that reaches back to before time 0, dooms nothing |
| Prune.AgeOfAllTime | src/core/engine.c:853-858 | an age that reaches back to time 0 exactly counts as none |
| Prune.NewestStay | src/core/engine.c:882-892 | no snapshot that goes is newer than a protected one, and without an age all but `keep_count` go |
| Prune.DeleteDoomed | src/core/engine.c:882-905 | whatever the list and the files are: the `.snapshot` files under the names of the doomed ids go, and of the manifests exactly those under names that had such a file; the count is the number of these files |
| Prune.TidyDeletion | src/core/engine.c:882-905 | when every file leads back to itself and was opened, exactly one file goes for each doomed snapshot and the file of every other one stays |
| Prune.CollectOrphans | src/core/engine.c:530-579 | afterwards the store holds exactly the earlier chunks that a loadable manifest under the name of a listed id mentions, unchanged |
| Prune.Prune | src/core/engine.c:826-917 | a prune deletes so the doomed of a sorted rearrangement of its list, by the rule that the rows above spell out, then lists the directory anew and leaves exactly the chunks that the manifests under the names listed then mention, of the files that can be opened |
| Framing.DecodeExact | src/net/protocol.c:95-115 | a buffer decodes if and only if magic and version match and the announced size is the buffer's size less 16, although the test is made modulo 2^64 |
| Framing.DecodeEncoded | src/net/protocol.c:47-127 | decoding an encoded frame gives it back |
| Formats.FrameOnWire | src/net/protocol.c:47-83 | a frame is "CSNF", version 1, the kind, two zeros, the size of the payload in eight bytes with the highest first, and the payload |
| Framing.FramesOfWire | src/net/protocol.c:47-127 | the frames parsed from a stream are the frames put on it, whatever follows them |
| Framing.WriteU64 | src/net/protocol.c:10-14 | the loop writes the big-endian bytes |
| Framing.ReadU64 | src/net/protocol.c:16-22 | the loop reads the big-endian number |
| Framing.AskedKeeps | src/net/client.c:36 | below the limit, 2^31 bytes where a negative int is refused and 2^32 where it is cut down, each call asks for at least one byte; from the limit on what is left never falls below it |
| Framing.LimitIs | src/net/client.c:36 | a call may move all that is left below 2^31 bytes; exactly 2^31 are moved only where a negative int is cut down, and exactly 2^32 nowhere |
| Framing.WriteAll | src/net/client.c:28-43 | on a stream that does not fail the data arrives whole if and only if its size is below that limit, however the stream splits it; a proper prefix arrives on failure |
| Framing.ReadAll | src/net/client.c:45-60 | exactly the next `size` bytes are placed in the buffer, however the stream splits them, if and only if the size is below the limit |
| Framing.ReceiveFrame | src/net/client.c:175-211 | the first frame of the stream is received and exactly its bytes are consumed if and only if its payload is below the limit; an announced size whose allocation wraps at 2^64 is told apart |
| Framing.TransferAll | src/net/client.c:156-211 | over any fragmenting stream the receiver gets exactly the list of frames sent, in order, and without stream failures the transfer succeeds if and only if all frames are below the limit |
| Interleaving.ReceivedAreSent | src/net/client.c:28-60 | whatever the interleaving of partial sends and partial receives, each at most what the cast size asks for, what has been received parses at every moment to exactly the frames whose bytes have arrived whole, a prefix of those sent |
| Interleaving.TransferCompletes | src/net/client.c:28-60 | every interleaving has at most two calls for each byte, and when none is possible any more all frames have been received if and only if all of them, with their headers, are below the limit of the cast |
| SyncText.HeaderRoundTrip | src/net/server.c:352-416 | the server reads from the header line exactly the id, source, time and sizes the client wrote if and only if neither id nor source holds a tab |
| Formats.HeaderAsText | src/core/engine.c:1083-1091 | the header line, for every header |
| SyncText.HeaderArrives | src/net/server.c:352-416 | in every case the time and the numbers arrive as written, and id and source as the fields between their tabs make them |
| SyncText.ArrivingId | src/net/server.c:386-389 | the id that arrives is the last one that the source path brings in behind a tab, or the snapshot's own when it brings in none |
| SyncText.TabTakesId | src/core/engine.c:1085-1090 | a source path that ends in a tab, "id=" and an id takes its snapshot to that id |
| SyncText.ScanEndsIff | src/net/server.c:299-343 | the scan for missing chunks ends if and only if no chunk line it meets lacks one of its two further tabs; on such a line it stays for ever |
| SyncText.ScanOfPrinted | src/net/server.c:284-350 | on any printed manifest without line ends in its paths the scan ends with exactly the full-length chunk hashes not in the store, in order |
| SyncText.ScanAgreesWithLoader | src/net/server.c:284-350 | the server's scanner finds exactly the loader's hashes that the store lacks |
| SyncText.LineEndCanCatchScan | src/net/server.c:306-307 | a recorded path that contains a chunk tag between line ends makes the scan never end |
| SyncText.CollectMissing | src/net/server.c:284-350 | the loop finds exactly those hashes, and is caught exactly where the scan never ends |
| SyncText.ReplyComplete | src/net/server.c:538-572 | the reply holds every missing hash if and only if it is not a single one together with an id of more than 30 characters |
| SyncText.BuildReply | src/net/server.c:538-572 | the loop builds that reply in its buffer |
| Formats.ReplyAsText | src/net/server.c:558-563 | the reply: the id, the number of missing chunks and their hashes line by line |
| SyncText.ClientSendsHeld | src/core/engine.c:1134-1192 | of a complete reply the client visits every line and sends exactly the hashes it has |
| SyncServer.HandledRemovesNothing | src/net/server.c:418-619 | no request removes a snapshot, a manifest or a chunk |
| SyncServer.AckMeansStored | src/net/server.c:580-610 | the answer to a chunk frame with a full-length hash names that hash if and only if its data have been stored under it, and otherwise nothing has changed |
| SyncServer.FrameIsStored | src/net/server.c:434-524 | a manifest frame is split at its first line end: the `.snapshot` gets id, time, source path, count and size of the line and no label, and all behind it is stored as the manifest, both under the file name of the id |
| SyncServer.Server.Handle | src/net/server.c:418-634 | the handler changes session and repository, and answers word for word, as the specification says for each kind of request |
| Sync.RefusalAnnouncesNothing | src/core/engine.c:1134-1154 | in a reply that refuses a manifest the client finds no hash to send |
| Sync.SyncOneEffect | src/core/engine.c:1034-1198 | one snapshot's exchange records what arrives of its header, and its manifest unchanged, under the id that arrives, and delivers exactly the missing chunks the client has, unless the reply dropped the only one |
| Sync.RefusedChangesNothing | src/net/server.c:472-475 | a snapshot whose id does not arrive is refused, nothing changes and the run goes on |
| Sync.RecordedAsSentIff | src/net/server.c:352-416 | the header is recorded as it was sent if and only if neither id nor source path holds a tab |
| Sync.RecordedReadsBack | src/net/server.c:509-514 | the `.snapshot` that the server writes is read back with the id and source path that arrived, the client's time, file count and size, and no label |
| Sync.ArrivesHomeIff | src/core/engine.c:1085-1090 | a snapshot goes to its own file name on the server if and only if the last id that its source path brings in behind a tab, if any, has that name |
| Sync.TabWritesOver | src/core/engine.c:1085-1090 | a source path that ends in a tab, "id=" and the id of another snapshot: that one's manifest is written over and nothing is recorded under its own name |
| Sync.RunConverges | src/core/engine.c:1034-1201 | from any state of the server a run completes, stores every manifest whose id arrives byte for byte under that id, removes nothing and touches no other name; the hashes there afterwards are those that were there and exactly those that such a manifest lists and the client has, except for manifests whose reply dropped the only missing one at their turn |
| Sync.OnlyUnheldReported | src/core/engine.c:1134-1192 | after a run every hash of a snapshot that is still missing is one the client lacks, if and only if its reply was complete at its turn, or the one hash dropped is one the client lacks or another snapshot brought |
| Sync.SecondRunChangesNothing | src/core/engine.c:1034-1201 | a second run of the same client leaves the server exactly as the first one left it, dropped hashes included |
| Sync.SingleChunkNeverArrives | src/net/server.c:538-564 | with an id of more than 30 characters and exactly one missing chunk that chunk is not sent, in this run or any later one |
| Sync.ClosedServerKeepsNothing | src/net/server.c:202-226 | if the server could not take its lock at the greeting nothing is stored and the run completes all the same |
| Sync.RunSync | src/core/engine.c:953-1227 | the client's loops drive the server to exactly the state of the specified run and report completion or abandonment |

## Left out

- Kdf.Pbkdf2: when the loop does not end, says nothing about what the endless turns write.
- Cipher.Seal: the header's numbers are in little-endian host order, and the result is the specified blob only while the session's key cache has seen no two passphrases with one hash.
- Cipher.Open: the same two points as for Seal.
- KeyCache.KeyCache.Derive: the tick counter is unbounded, where the source's wraps after 2^64 uses.
- Restore.RestoreFile: returns the bytes to be written, not the written file, and stops where the copy would leave the buffer.
- Path.JoinInto: asks that the output does not overlap the two inputs, as memcpy does.
- ManifestText.PrintedLoads: speaks of paths the manifest accepts that are shorter than the path buffer, as the engine's are.
- RepositorySafety.ReachableIsSound: a server's manifests are texts that some backup wrote, and its chunks are true to their hashes, as an unmodified client's are.
- Framing.WriteAll: a negative int as a size is refused (Windows) or cut down to 2^31 - 4096 bytes (Linux), one of the two for a whole stream.
- Framing.ReceiveFrame: where the allocation wraps it stops; a failed allocation is not modelled.
- Pipeline.RecoversWithGiven: no concrete passphrase of more than 255 bytes is shown to fail, which would take 600000 rounds of HMAC-SHA-256 in the proof; tags that coincide are the exact condition.
- Sync.RunConverges: asks for ids and sources without line ends, as a listing gives them, header lines under 512 bytes, arriving ids in which the reply's "missing=" does not occur, manifests the scan can finish, and snapshots that arrive under different file names; every put and every frame goes well.
- SyncText.ArrivingId: speaks of ids without tabs, as backups make them; an id with one arrives as its fields say (`SyncText.HeaderArrives`).
- SyncServer.Server.Handle: replies to failing file operations are not modelled, and a hash is the text of the frame's first 64 bytes.
- The growth of a manifest file's own chunk array is appending to a sequence; the file array grows as in the source.
- Restore, verify and backup call the cipher's specification; the cipher's own methods are proved against it in `Cipher`.
- The manifest's and the session's texts are strings of characters, not bytes; chunk data are bytes.
- RepositorySafety.IntactIffHarmless: speaks of ids of 1 to 63 characters and of labels and source paths without NUL, cut to their buffers, as the source's strings are; the counts that the second write of a `.snapshot` adds are part of the job.
- SnapshotStore.SnapshotStore.Delete: a remove fails only for a file that is not there.
- Prune.AgeDecides: the product of days and 86400 is taken not to overflow a long.
- Formats.ManifestAsText: one manifest; the general text is the printer's specification, which the loader reads back.
- RestoreTree.OutputDir.WriteFile: a place is the list of names on the way, without "."; links, file systems that fold names, empty directories that were there before, names too long for a buffer, and writes that fail half way are not modelled.
- SyncText.ClientSendsHeld: the reply is its own text; the client's strstr and atol read a payload that no NUL ends, so what stands in memory behind it is not part of this model.
- Chunker.ChunkBuffer: what the loop visits after its offset has wrapped is not modelled; the callers hand the flag on.
- A put, a manifest rename and a deletion are single steps: writes torn inside one file, and the temporary manifest that a stop leaves behind, are not part of this model.
- The lock is the phase a process is in: exclusive for backup, prune and server, shared for readers, given up when it stops; flock itself is not modelled.
- Journal, chunk index, repository metadata and configuration: no property here depends on them.
- Directory scanning, file reading, socket set-up, the accept loop and host resolution are inputs or streams.
- A session that ends without a farewell leaves the server's lock held: in `Repository` such a server goes on serving until it stops, in `Sync` sessions are complete.
- The uncompressed codec, the Windows branches, zeroing of memory, timing and any cryptographic strength.
- Failed allocations and thread creation, and null arguments.

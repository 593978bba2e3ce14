# s3xc: a verified model of the caching proxy

s3xc is an S3 proxy that keeps a chunked copy of uploaded objects on local disk. This project models its cache
coordinator, its metadata database, its chunk store, its evictor, its single-flight downloader, its request handlers
and both halves of its SigV4 code in Dafny 4.11, and proves what they guarantee. `dafny verify dfyconfig.toml` checks
everything.

## How it is put together

| layer | modules |
|---|---|
| vocabulary and codecs | `Basics`, `Text`, `Decimal`, `Sorting`, `Utf8`, `PercentCodec`, `CopySource`, `ChunkKey`, `ByteRange`, `QueryString` |
| chunk arithmetic | `Blocks`, `Splitter` |
| the cache as a value | `CacheModel` (state, atomic writes, the log of every operation), `Coherence` (when a chunk is right; the write discipline) |
| what each operation achieves | `Operations`, `Reading`, `PutOperation`, `Copying`, `Download` |
| whole runs | `Runs`, `Refinement`, `CrashPoints`, `Interleaving`, `Hazards` |
| what a client sees | `Replies` (bytes, status, headers), `HotReads` (what is served from disk), `Recency` (access times and eviction) |
| the program | `Journal`, `Database`, `Storage`, `Upstream`, `Coordinator`, `Handlers`, `Eviction` (classes and methods with the source's loops) |
| concurrency | `SingleFlight`, `ConcurrentReads` |
| signing | `SigV4`, `SignThenVerify`, `SignatureScheme` (the scheme written out), `Tampering` (what is refused), `Credentials`, `SigningMethods` |

**State.** The durable state has four parts: the upstream store, the object table, the chunk table and the chunk
files. An object is identified by its database key `bucket/key`. Every coordinator operation is described by the log
of atomic writes it performs: one database transaction, one rename or unlink, one commit upstream. What a process
crash leaves behind is a prefix of that log. The classes keep a ghost journal, shared by the three stores, and every
method is proved both to reach the state the log describes and to append exactly that log, in that order. Swapping
two writes of a method breaks its postcondition.

**When a chunk is right.** A cached chunk is judged against the version its object's record names, not against the
current upstream content, because the code notices staleness only when a HEAD compares ETag and length. A ghost
`Naming` maps (ETag, length) to the content it stands for. The invariant `CrashSafe` is an invariant of single writes;
`Coherent` adds that no chunk is registered without its object. `Allowed` says which write is safe in which state, and
is exact: a write is allowed if and only if it leaves the state crash-safe (`Coherence.AllowedExactly`), and a log is
`Disciplined` if and only if every prefix of it does (`Coherence.DisciplineExactly`).

**What a legal run is.** A crash can leave chunks registered without their object: leftovers. The code does not know of
them, so a later PUT, DELETE, COPY or change upstream of that object may go wrong. `Runs.Guarded` says, for each kind
of operation, when it does not, in terms of the two tables, the files and the request; for example a PUT that may be
cut anywhere must overwrite each leftover with the bytes upstream has, and what it stores must fit the leftover. The
guard is exact (`Runs.GuardedExactly`), and so the legal runs are exactly those runs of an honest environment that
never leave a wrong chunk registered (`Refinement.LegalRunsExactly`). Where no operation was cut there are no leftovers,
and only a COPY has a guard (`Refinement.CoherentGuards`).

**Main results.**

- `Refinement.RunRefinesUpstream`: over every legal run, with crashes at any write, lost files and changes behind the
  proxy's back, upstream evolves as it would without a cache and a GET delivers upstream's bytes of that moment or a
  prefix of them followed by an error. `Refinement.CalmRunEqualsUpstream`: without crashes and lost files every GET
  finishes with exactly the plain store's answer. `Refinement.PutThenGet` is the round trip.
- `Replies.RangedReply`, `WholeReply`, `UnsatisfiableReply`, `RangedHeaders`: the answer to a GET, said without the
  proxy's window arithmetic: exactly the bytes at the positions the Range header selects, in order, with their number,
  first and last position; or the whole object; or an empty partial answer. `RangedReplyInRun` lifts it to runs.
- `HotReads.KeptExactly`, `PutThenHotGet`: after a PUT the next HEAD keeps every chunk if and only if upstream has given
  the object an ETag, and then a GET of any range takes every byte from disk, whatever upstream holds by then.
  `CopyCarriesOver`, `CopyKept`: the same for COPY.
- `Recency.GetStamps`, `ReadChunksOutlive`: a GET stamps exactly the cached chunks it reads, and no chunk just read is
  evicted while a complete chunk it did not read stays.
- `Runs.GuardedExactly`, `Refinement.LegalRunsExactly`, with `PutOperation.PutDisciplinedExactly`, `PutEndsExactly`,
  `CommitExactly`, `RemoveExactly` and `Runs.DeleteEndsExactly`: when an operation on an object with leftovers is safe,
  at every crash point and at its end, each an if and only if.
- `CrashPoints.PutCrashPoints`: a successful PUT can be cut anywhere and stays coherent, except exactly between the
  registration of its first chunk and the registration of its object; every cut leaves a crash-safe state.
  `CrashPoints.RetryHeals`: a successful retry of the same body makes the cache coherent again wherever the PUT died.
- `Copying.CopySafeExactly`, `CopyDisciplinedExactly`: COPY, onto any destination, the source included, ends with right
  chunks, or is safe at every crash point, exactly when what already sits at the destination agrees with the source's
  record.
- `Interleaving.EvictorHarmless`: the evictor's removals may fall between any two writes of an operation without
  making any state unsafe that was safe.
- `Eviction.EvictionBound`, `EvictionReachesTarget`, `EvictionIsLru`, `OldestStable`: the evictor frees just enough,
  oldest first, ties in table order.
- `SingleFlight.SingleDownload`, `OkMeansRecorded`, `NoDeadlock`, `EveryRunEnds`: at most one download per chunk is in
  flight, Ok means registered with the exact length, no interleaving of N callers deadlocks, and together they take
  at most N * (2N + 12) steps. `OkUnlessFailed`: a caller fails only if a download of its chunk fails in the run.
- `ConcurrentReads.StreamsNeverWrong`: readers and the evictor, interleaved one transaction or file operation at a
  time, never produce a wrong byte; `ComesBackExactly` says when the touch puts an evicted entry back, and
  `EntryComesBack` shows a run in which it does. `BreaksExactly`: a stream breaks if and only if its reader finds a
  file gone that it had seen registered.
- `SignThenVerify.AuthorizationRoundTrip`, `SignedIsAccepted`, `AcceptedExactly`: what the client signs, the
  independently written verifier accepts, and exactly when. `SignatureScheme.SignatureSent`, `VerdictFollows`,
  `PresignedVerdict`: both halves, and pre-signed URLs, follow the scheme as written out once more.
  `Tampering.VerdictExactly`: a request that presents a client's signature is accepted if and only if the secret is the
  one it was signed with and time stamp, method, path, canonical query, signed header values and payload hash are those
  that were signed; it rests on `Tampering.CanonicalInjective`.
- `ByteRange.SatisfiableRangesAgree`, `QueryString.CanonicalNormalForm`, `PercentCodec.DecodeEncode`, `AgreesExactly`,
  `CopySource.RoundTrip`, `ChunkKey.DecodeEncode`, `Credentials.PairRoundTrip`: the parsers and printers. For the Range
  header, the percent decoder and the copy source the exact set of inputs on which the code does what it should.

## What is assumed

- The upstream store never reports an empty ETag, and ETag (or its absence) and length determine the content. An
  accepted upload stores the body, and the body has the declared length. Upstream honours Range; the cold path does
  not check the returned length (`src/cache/mod.rs:161-170`), unlike the download (`src/cache/mod.rs:350-356`).
- Database transactions succeed. Unlinking a file may fail, and so may writing a chunk: both are inputs (`Disk`).
- The digest used for paths has no collisions and at least four hex digits (`Storage.IdealHash`; the model does not
  fix its length). The MAC returns at least one byte. `SignThenVerify.AcceptedExactly` and `Tampering` assume
  collision-free primitives, `Tampering` a MAC that is injective in its key too. Methods and paths hold no line break.
- The clock is an input, as are upload outcomes and the moment at which the upload channel closes.
- Lengths and indices fit 64 bits. Chunk sizes are stored modulo 2^32, written out as `CacheModel.Truncate32`; the
  addition in `parse_range` wraps, as in a build without overflow checks.
- One operation runs at a time on a key, except in `SingleFlight` and `ConcurrentReads`, and except for the evictor in
  `Interleaving`.
- In a legal run an operation on an object with leftovers of a crash meets its guard. This shuts out a retry with
  another body whose upload fails, a DELETE, and a change upstream to other bytes; `Hazards` shows what each of them
  does.
- `fs::copy` of a file onto itself leaves it empty.
- Callers that want the same chunk through the single-flight path want the same length (`SingleFlight.Consistent`).

## Where the code falls short of its promise

Each of these is a lemma with a concrete input or an exact condition.

- COPY onto a destination that is already cached serves the overwritten bytes (`Hazards.CopyOntoCachedDestination`;
  exact condition `Copying.CopySafeExactly`). `MEMORY.md` says that a copy leaves the cache cold; the code copies the
  cached chunks, and the model follows the code.
- COPY of a cached object onto itself empties its chunk files; the next GET breaks (`Hazards.CopyOntoItself`).
- A crash between the first chunk's and the object's registration (`Hazards.HalfRegisteredReachable`; exact window
  `CrashPoints.PutCrashPoints`) leaves chunks that nothing accounts for. The next GET then serves wrong bytes after a
  change upstream (`Hazards.CrashThenOverwrite`), after a mere retry with another body whose upload fails, with nothing
  changed upstream (`Hazards.CrashThenRetry`), and after a DELETE and a later write (`Hazards.CrashThenDelete`). The
  exact conditions are `PutOperation.CommitExactly`, `PutDisciplinedExactly`, `PutEndsExactly` and
  `Runs.DeleteEndsExactly`; a successful retry of the same body is always safe (`CrashPoints.RetryHeals`).
- A PUT that fails on its stream or on a chunk write leaves no entry, but it leaves chunk files when an earlier PUT
  whose upload failed had left files beyond both counts (`PutOperation.FailedPutFiles`, an if and only if; reached from
  an empty cache without a crash in `Hazards.UncountedFile`).
- `parse_range` does not serve a satisfiable range when a number does not fit 64 bits, or when the last position is
  2^64 - 1; it answers an unsatisfiable range with 200 or an empty 206 instead of 416, and one kind of invalid range
  with an empty 206 (`ByteRange.SatisfiableRangesAgree`, `UnsatisfiableRanges`, `InvalidRanges`). The Content-Range of
  an empty 206 names a range that ends before it starts (`Replies.UnrangedHeaders`).
- If the upload's response has no ETag, the next HEAD drops every chunk the PUT has cached (`HotReads.KeptExactly`).
- `hot` speaks of the first chunk only (`Replies.HotExactly`).
- The LRU touch can register a chunk whose file is gone; every later read of that chunk breaks until the object is
  dropped (`ConcurrentReads.EntryComesBack`, `LostChunkBreaksReads`; exact condition `ComesBackExactly`).
- A malformed percent escape loses its two characters (`PercentCodec.MalformedEscapes`; exact condition
  `AgreesExactly`), and no bucket with a percent sign is read back from a printed copy source (`CopySource.RoundTrip`;
  `BucketWithPercent` is one that is read as another bucket).
- A PUT whose copy-source header names no bucket and key is taken as an upload of its body (`Handlers.CopyOrUpload`).
- A signed request whose query carries `X-Amz-Signature` is refused by the proxy's own verifier
  (`SignThenVerify.AcceptedExactly`).
- `read_range` does not use the single-flight path, although the documentation promises it for reads.

## Model

| member | source | states |
|---|---|---|
| Blocks.IndexInRange | src/cache/mod.rs:189-193 | a chunk index is below the recomputed count exactly when the chunk starts inside the object |
| Blocks.BlockSizes | src/cache/mod.rs:441-464 | all chunks but the last are full, the last holds 1 to chunk_size bytes, there is nothing beyond |
| Blocks.BlocksPartition | src/cache/mod.rs:129-130 | the chunks, end to end, are the object |
| Blocks.QuotientIsDivision | src/cache/mod.rs:117-118 | the step-by-step quotient used in the proofs is the machine's division |
| Blocks.WindowOfBlock | src/cache/mod.rs:128-136 | offset and length of a chunk's share select the same bytes of the object |
| Blocks.WindowsMeet | src/cache/mod.rs:128-136 | shares of consecutive chunks meet without gap or overlap and cover the range |
| Blocks.NoOverflow | src/cache/mod.rs:129-130 | `(idx + 1) * chunk_size` fits 64 bits for the whole range exactly when it does for the last chunk; `len - 1 + chunk_size < 2^64` is enough |
| ChunkKey.DecodeEncode | src/cache/policy.rs:77-81 | cutting at the last colon and parsing recovers key and index for every key and every 64-bit index |
| ChunkKey.EncodeInjective | src/cache/metadata.rs:112 | distinct chunks never share a table entry |
| ChunkKey.DbKeyInjective | src/cache/mod.rs:65 | for buckets without a slash, a database key stands for one object |
| Decimal.ParsePrint | src/cache/policy.rs:81 | printing and parsing a 64-bit number |
| ByteRange.ParseRange | src/server/handlers.rs:27-66 | any accepted header gives `start <= end <= size` |
| ByteRange.SatisfiableRangesAgree | src/server/handlers.rs:27-66 | for every header that spells a satisfiable single range, in lower-case `bytes=` form and with any leading zeros, the window is the one RFC 9110, section 14.1.2, selects if and only if its numbers fit 64 bits and the last position is not 2^64 - 1 |
| ByteRange.UnsatisfiableRanges | src/server/handlers.rs:44-65 | exactly which valid unsatisfiable ranges are ignored, all others giving the empty window at the end |
| ByteRange.InvalidRanges | src/server/handlers.rs:58-64 | a range that ends before it starts is ignored, except exactly when it ends one position before a start inside the object |
| ByteRange.AcceptedAnswer | src/server/handlers.rs:37-65 | blanks around the numbers and plus signs before them make no difference to the answer |
| ByteRange.SpelledIsAccepted | src/server/handlers.rs:31-38 | every header of the grammar is among those accepted |
| ByteRange.OthersIgnored | src/server/handlers.rs:28-43 | every other header is ignored: another unit, no dash or more than one, no number |
| CacheModel.ReplayConcat | src/cache/mod.rs:374-504 | a log is performed piecewise: what a crash leaves is the replay of a prefix |
| Splitter.IngestOutcome | src/cache/mod.rs:414-464 | the splitter reaches the end exactly when no piece is an error, the channel stays open and the disk takes every chunk; it has then accepted the whole body and written as many chunks as drop and copy recompute |
| Splitter.IngestFails | src/cache/mod.rs:419-464 | a failed splitting has accepted the pieces before its failure and written every full chunk up to the first the disk refused; it fails for a stream error, a closed channel or a refused chunk |
| Splitter.CutsDoNotMatter | src/cache/mod.rs:419-464 | the same body gives the same chunks however the stream is cut |
| Coherence.AllowedKeepsSafe | src/cache/mod.rs:475-491 | a write allowed by the discipline keeps every registered chunk right for its object's recorded version |
| Coherence.AllowedExactly | src/cache/mod.rs:475-491 | and no other write does: allowed if and only if the state stays crash-safe |
| Coherence.DisciplineExactly | src/cache/mod.rs:390-503 | a log is disciplined if and only if every prefix of it leaves the state crash-safe |
| Coherence.DisciplineSafe | src/cache/mod.rs:390-503 | a disciplined log can be cut anywhere |
| Coherence.LogFrame | src/cache/mod.rs:185-201 | an operation on one object leaves every other object's records, entries and files alone |
| Operations.DropEffect | src/cache/mod.rs:185-201 | exactly what dropping an object leaves |
| Operations.DropComplete | src/cache/mod.rs:185-201 | with a record no entry is left, without one all are; there is no record, and only files are left that the disk refuses to unlink or no record accounted for |
| Operations.RefreshEffect | src/cache/mod.rs:75-93 | HEAD leaves upstream's record, and the chunks only if ETag and length agree |
| Operations.RefreshDisciplined | src/cache/mod.rs:59-94 | HEAD keeps every chunk right at every point and ends with the current record |
| Operations.RefreshIdempotent | src/cache/mod.rs:59-94 | the second HEAD of a GET changes nothing |
| Operations.TouchEffect | src/cache/mod.rs:146-151 | LRU touches change access times and nothing else |
| Recency.TouchedAt | src/cache/mod.rs:146-151 | the touches of a read stamp exactly its complete chunks, each with the clock's reading for it |
| Recency.VisitedExactly | src/cache/mod.rs:116-123 | a read visits exactly the chunks that hold one of its bytes |
| Recency.GetStamps | src/cache/mod.rs:146-151 | after a GET exactly the complete chunks that hold a byte it was asked for carry the clock's reading; every other entry is as it was |
| Recency.RangedReadBy | src/cache/mod.rs:116-151 | with a satisfiable range, those are the chunks that hold a selected position |
| Recency.ReadChunksOutlive | src/cache/policy.rs:68-75 | no chunk a GET has read is evicted while a complete chunk it did not read stays |
| Operations.WriteChunksExactly | src/cache/mod.rs:440-449 | chunk files may be written before registration exactly when every registered chunk they overwrite gets right bytes |
| Operations.RegisterDisciplined | src/cache/mod.rs:475-482 | each registered chunk is right for what upstream now stores |
| Reading.ReadChunkRight | src/cache/mod.rs:138-172 | a chunk's item is the right window of upstream's content, from disk or cold, or an error exactly when its file is gone |
| Reading.ReadRight | src/cache/mod.rs:98-182 | from any crash-safe state a ranged read delivers a prefix of upstream's bytes; it fails exactly when a registered chunk of the range has lost its file, and is otherwise complete |
| Reading.BackedReadFinishes | src/cache/mod.rs:98-182 | with all files in place a read delivers the whole range |
| PutOperation.PreparationEffect | src/cache/mod.rs:391-472 | before registration: no record, nothing registered but leftovers, the chunk files in place, upstream decided |
| PutOperation.CommitExactly | src/cache/mod.rs:405-412 | an object may change upstream if and only if it has a record or its leftovers fit the new object |
| PutOperation.RemoveExactly | src/server/handlers.rs:300-309 | an object may vanish upstream if and only if it has a record or nothing is left over |
| PutOperation.PutDisciplinedExactly | src/cache/mod.rs:374-504 | a PUT leaves right chunks at every crash point if and only if every leftover survives each of its writes |
| PutOperation.PutEndsExactly | src/cache/mod.rs:374-504 | a PUT ends with right chunks if and only if a successful one has no leftover beyond its body, and a failed one's leftovers fit what upstream then stores |
| PutOperation.PutDisciplined | src/cache/mod.rs:374-504 | with nothing left over, every write of a PUT is allowed at its turn |
| PutOperation.PutOutcome | src/cache/mod.rs:469-503 | success caches the body's chunks under the stored version; failure leaves no record; beyond that only leftovers stay registered |
| HotReads.PutRecordFields | src/cache/mod.rs:485-491 | length, type, ETag and time of the record a PUT leaves; a missing ETag is recorded as empty |
| HotReads.KeptExactly | src/cache/mod.rs:75-93 | the next HEAD keeps every chunk a PUT has cached if and only if upstream has given the object an ETag |
| HotReads.PutThenHotGet | src/cache/mod.rs:138-155 | after such a PUT a GET of any range takes every byte from disk, whatever upstream holds by then, and is marked hot |
| HotReads.HitReadsFile | src/cache/mod.rs:138-172 | a complete chunk is read from its file at its offset, any other from upstream |
| PutOperation.FailedPutFiles | src/cache/mod.rs:496-502 | a failed PUT leaves no chunk file exactly when every earlier file lay below the recorded count or among the chunks it visited |
| Copying.CopyChunksEffect | src/cache/mod.rs:214-243 | record, entries and files of the destination after a copy, chunk by chunk |
| HotReads.CopyCarriesOver | src/cache/mod.rs:214-243 | chunk by chunk, what a copy to another key carries over and what it leaves alone |
| HotReads.CopyKept | src/cache/mod.rs:204-245 | a wholly cached source makes a wholly cached copy, which the next HEAD keeps if ETag and length agree |
| Copying.CopyCoherent | src/cache/mod.rs:204-245 | a copy to a clear destination keeps every chunk right, with a partly evicted or stale source, at every point |
| Copying.CopySafeExactly | src/cache/mod.rs:204-245 | a copy onto any key ends with right chunks if and only if what outlives it at the destination agrees with the source's record |
| Copying.CopyDisciplinedExactly | src/cache/mod.rs:204-245 | it leaves right chunks at every crash point if and only if what is registered there fits the record, no registered chunk's file is truncated and no entry is copied onto a wrong file |
| Copying.StaleCopyDropped | src/cache/mod.rs:77-82 | the next HEAD drops the copied chunks whenever their ETag or length is out of date |
| Download.ChunkFetched | src/cache/mod.rs:339-356 | an honest upstream delivers exactly a chunk's bytes for its range |
| Download.DownloadDisciplined | src/cache/mod.rs:330-370 | a download under a current record, of a chunk registered or not, keeps the cache crash-safe at every point and registers upstream's bytes |
| Download.DownloadTwice | src/cache/mod.rs:298-313 | a second download of a chunk changes its access time and nothing else |
| Download.FitsExactly | src/cache/mod.rs:348-356 | a download is refused exactly when upstream does not have all the bytes asked for |
| Download.FillBacked | src/cache/mod.rs:358-369 | at no point of a download is the chunk registered without its file |
| Runs.EvictEffect | src/cache/policy.rs:76-100 | eviction removes exactly the victims' entries, and their files if the disk unlinks them |
| Runs.GetDisciplined | src/cache/mod.rs:98-182 | once the metadata is fresh a GET writes access times and nothing else: reads never fill the cache |
| Runs.UnguardedDisciplined | src/cache/mod.rs:59-182 | GET, HEAD, eviction and a lost file are safe at every point in every crash-safe state |
| Runs.DeleteEndsExactly | src/server/handlers.rs:291-318 | a DELETE ends with right chunks, and is safe throughout, if and only if the object has a record or nothing is left over |
| Runs.CopyGuardExactly | src/server/handlers.rs:238-244 | the guards of a copy that ends and of one that may be cut anywhere are exact |
| Runs.GuardedExactly | src/cache/mod.rs:59-503 | an operation that ends leaves right chunks if and only if it is guarded; one that may be cut anywhere does so at every cut if and only if it is guarded |
| Runs.StepSafe | src/cache/mod.rs:390-503 | wherever the process dies, the state is crash-safe |
| Runs.ReplyRight | src/server/handlers.rs:131-212 | status, Content-Length and bytes of a GET are upstream's for the window of the request, from any crash-safe state; `Replies` says what that window selects |
| Replies.RangedReply | src/server/handlers.rs:151-180 | a GET for a satisfiable range is answered partially with exactly the bytes at the selected positions, in order, and their number, from any crash-safe state |
| Replies.WholeReply | src/server/handlers.rs:156-159 | without a Range header, or with a refused one, the whole object is answered |
| Replies.UnsatisfiableReply | src/server/handlers.rs:44-65 | a valid range that selects nothing is answered with the whole object or an empty partial answer, and when which |
| Replies.MissingReply | src/server/handlers.rs:140-148 | an object upstream does not have is not found, and the cache stays as it is |
| Replies.RefusedChangesNothing | src/server/handlers.rs:238-309 | a DELETE or COPY that upstream refuses changes nothing |
| Replies.RangedReplyInRun | src/server/handlers.rs:131-212 | the same in every state of a calm legal run |
| Replies.PutThenRangedGet | src/cache/mod.rs:98-182 | after a PUT and any evictions, a ranged GET returns the bytes of the body that the range selects |
| Replies.RangedHeaders | src/server/handlers.rs:161-191 | Content-Range names the first and last selected position and the size; Content-Length counts them; type, ETag and date are upstream's |
| Replies.UnrangedHeaders | src/server/handlers.rs:183-191 | the headers of a full and of an empty partial answer |
| Replies.HeadReports | src/server/handlers.rs:91-110 | HEAD reports length, type, ETag and date of the object upstream stores |
| Replies.HeadRecords | src/cache/mod.rs:84-93 | and keeps exactly these as its record |
| Replies.HotExactly | src/server/handlers.rs:195-209 | the cache status is hot exactly when the object is empty or its first chunk is complete |
| Refinement.UpstreamStep | src/server/handlers.rs:214-318 | upstream sees of a cached run what it would see of an uncached one |
| Refinement.CoherentStep | src/cache/mod.rs:59-503 | finished operations keep coherence, and none takes a registered chunk's file away |
| Refinement.RunRefinesUpstream | src/cache/mod.rs:59-94 | refinement of the plain upstream store over every legal run, crashes and lost files included; which bytes a request selects is in `Replies` |
| Refinement.LegalRunsExactly | src/cache/mod.rs:59-503 | under an honest environment the legal runs are exactly those in which every state, and every possible crash point, is crash-safe |
| Refinement.CalmRunEqualsUpstream | src/cache/mod.rs:59-503 | without crashes and lost files every GET equals the plain store's answer |
| Refinement.PutThenGet | src/cache/mod.rs:98-182 | after a PUT and any evictions, a GET of any range returns exactly that slice of the body |
| Refinement.CoherentGuards | src/server/handlers.rs:214-318 | in a coherent state only a copy needs a guard |
| Refinement.EmptyCacheCoherent | src/cache/mod.rs:36-49 | an empty cache starts coherent |
| CrashPoints.RegistrationWindow | src/cache/mod.rs:475-491 | inside the window a chunk is registered and its object is not |
| CrashPoints.PutCrashPoints | src/cache/mod.rs:390-494 | every crash point of a successful PUT is crash-safe, and coherent if and only if it is outside the registration window |
| CrashPoints.FailedPutCrashPoints | src/cache/mod.rs:390-503 | every crash point of a failed PUT is coherent |
| CrashPoints.RepeatSafe | src/cache/mod.rs:374-504 | sending again the body upstream has is safe in every crash-safe state, at every point and however it ends |
| CrashPoints.RetryHeals | src/cache/mod.rs:390-494 | after a PUT that died anywhere, a successful retry of its body leaves a coherent cache |
| CrashPoints.EvictionLeavesNoOrphan | src/cache/policy.rs:83-92 | cut anywhere, eviction leaves no chunk file without an entry that had one |
| CrashPoints.DropLeavesNoOrphan | src/cache/mod.rs:188-199 | nor does dropping an object, whose record goes last |
| CrashPoints.RegistrationBacked | src/cache/mod.rs:475-491 | from the end of the upload on, no chunk is registered without its file |
| CrashPoints.UpstreamFirst | src/server/handlers.rs:238-309 | DELETE and COPY change upstream before they touch the cache |
| Interleaving.EvictorHarmless | src/cache/policy.rs:33-43 | an operation's writes leave every state crash-safe if and only if they do so with any removals of chunks between them |
| Interleaving.BlindLog | src/cache/mod.rs:374-504 | the writes of PUT, HEAD and DELETE do not depend on which chunks have been evicted |
| Interleaving.InterleavedSafe | src/cache/policy.rs:33-43 | with the evictor at work an operation ends as without it, except that chunks are missing |
| Hazards.CopyOntoCachedDestination | src/cache/mod.rs:214-243 | a concrete run in which a copy onto a cached destination serves overwritten bytes |
| Hazards.CopyOntoItself | src/cache/mod.rs:230-240 | a concrete run in which a copy onto itself empties the chunk file and breaks the next GET |
| Hazards.HalfRegisteredReachable | src/cache/mod.rs:475-491 | a legal PUT that dies inside the registration window |
| Hazards.CrashThenOverwrite | src/cache/mod.rs:75-93 | after that crash, a change upstream makes the next GET serve old bytes |
| Hazards.CrashThenRetry | src/cache/mod.rs:440-449 | after that crash, a retry whose upload fails makes the next GET serve the retry's bytes, with nothing changed upstream |
| Hazards.CrashThenDelete | src/cache/mod.rs:185-201 | after that crash, a DELETE leaves the chunk registered, and a later write behind the proxy makes the next GET serve it |
| Hazards.UncountedFile | src/cache/mod.rs:496-502 | two legal PUTs from an empty cache leave a chunk file that no count covers, for every chunk size and every body longer than one chunk |
| Storage.ChunkPathInjective | src/cache/storage.rs:19-30 | distinct chunks have distinct files |
| Storage.TempPath | src/cache/storage.rs:70 | the temporary path is the chunk's path with an extension and is no chunk's path |
| Storage.Storage.ReadChunkRange | src/cache/storage.rs:41-62 | exactly the requested bytes, or an error for a missing or short file |
| Storage.Storage.WriteChunk | src/cache/storage.rs:65-82 | the chunk file is replaced or untouched, in every file system seen on the way |
| Storage.Storage.DeleteChunk | src/cache/storage.rs:85-91 | the file is gone unless the disk refuses; a missing file is no error |
| Database.MetadataDb.GetChunk | src/cache/metadata.rs:96-106 | the entry stored for this chunk and no other |
| Database.MetadataDb.PutChunk | src/cache/metadata.rs:108-118 | one chunk's entry changes, in one transaction |
| Database.MetadataDb.DeleteChunk | src/cache/metadata.rs:120-129 | one chunk's entry is removed, in one transaction |
| Database.MetadataDb.PutObject | src/cache/metadata.rs:75-84 | one object's record changes, in one transaction |
| Database.MetadataDb.ListAllChunks | src/cache/metadata.rs:133-144 | every row once, in key order |
| Database.RepresentsPut | src/cache/metadata.rs:108-118 | the string-keyed table stays an exact picture of the chunks |
| Coordinator.CacheCoordinator.DropCacheForObject | src/cache/mod.rs:185-201 | performs exactly the drop log |
| Coordinator.CacheCoordinator.GetObjectMetadata | src/cache/mod.rs:59-94 | performs exactly the refresh log and returns upstream's metadata |
| Coordinator.CacheCoordinator.PlanFetches | src/cache/mod.rs:116-136 | one fetch for each chunk of the range, with its offset and length |
| Coordinator.CacheCoordinator.FetchChunk | src/cache/mod.rs:138-172 | a hit is touched and read from disk, a miss comes from upstream and writes nothing |
| Coordinator.CacheCoordinator.ReadRange | src/cache/mod.rs:98-182 | the stream is the specified one and the writes are exactly the read log |
| Coordinator.CacheCoordinator.CopyCacheObject | src/cache/mod.rs:204-245 | performs exactly the copy log |
| Coordinator.CacheCoordinator.DrainFullChunks | src/cache/mod.rs:439-449 | writes full chunks from the front of the buffer and stops at the first the disk refuses |
| Coordinator.CacheCoordinator.SplitStream | src/cache/mod.rs:414-464 | the nested loops compute the splitter's specification |
| Coordinator.CacheCoordinator.WriteAndCacheObject | src/cache/mod.rs:374-504 | performs exactly the PUT log and returns the stored ETag exactly on success |
| Coordinator.CacheCoordinator.DownloadAndCacheChunk | src/cache/mod.rs:330-370 | caches the chunk exactly when upstream answers with the exact length and the disk takes it |
| Handlers.GetObjectHandler | src/server/handlers.rs:131-212 | the reply, its headers and the writes are the run model's; a Range header that is not visible text is ignored |
| Handlers.HeadObjectHandler | src/server/handlers.rs:74-129 | the headers and the writes are the run model's |
| Handlers.CopyOrUpload | src/server/handlers.rs:224-231 | a PUT with a copy-source header is an upload exactly when the header is not visible text or has no slash after decoding and trimming |
| Handlers.PrintedSourceCopies | src/server/handlers.rs:224-236 | the copy source this proxy prints is taken as a copy of the object it names |
| Handlers.UploadDeclared | src/server/handlers.rs:264-272 | an upload declares the length and type of its headers; a missing or unreadable length counts as zero |
| Handlers.AnswerIsUpstreams | src/server/handlers.rs:238-289 | a PUT or COPY that ends well answers with the ETag of the object upstream then stores |
| Handlers.PutObjectHandler | src/server/handlers.rs:214-289 | copy or upload as the headers say; the answer and the writes are the run model's for that operation |
| Handlers.CopyUpstreamThenCache | src/server/handlers.rs:238-244 | upstream first, then the cache, with the run model's writes, for any source and destination |
| Handlers.DeleteObjectHandler | src/server/handlers.rs:291-318 | upstream first, then the cache, with the run model's writes |
| Eviction.CandidatesComplete | src/cache/policy.rs:51-57 | the candidates are exactly the complete chunks, each once |
| Eviction.OldestStable | src/cache/policy.rs:69 | chunks last used in the same second are considered in table order |
| Eviction.TotalIsBytes | src/cache/policy.rs:48-52 | the scan's total is the registered bytes of the table |
| Eviction.GreedyJustEnough | src/cache/policy.rs:71-75 | the loop frees just enough: the target is reached whenever it can be, no shorter run would do, and the overshoot is less than the last victim |
| Eviction.EvictionBound | src/cache/policy.rs:45-100 | nothing below the limit, just enough above it, for every table |
| Eviction.EvictionReachesTarget | src/cache/policy.rs:45-100 | in every crash-safe state a run that starts above the limit ends within the target |
| Eviction.EvictionIsLru | src/cache/policy.rs:68-75 | no victim is newer than a complete chunk that stays |
| Eviction.WithoutFirstIsEviction | src/cache/policy.rs:76-95 | a run's effect and writes are those of evicting its victims in the run model |
| Eviction.KeysDecode | src/cache/policy.rs:77-81 | every key of the table decodes, so no candidate is skipped |
| Eviction.EvictionManager.EvictUntil | src/cache/policy.rs:71-95 | evicts from the front until enough bytes are freed |
| Eviction.EvictionManager.CheckAndEvict | src/cache/policy.rs:45-100 | removes exactly the oldest candidates needed, and returns the drop in the table's registered bytes |
| SingleFlight.StepKeepsInv | src/cache/mod.rs:248-370 | every step of every caller, and every eviction, keeps the protocol's invariant |
| SingleFlight.SingleDownload | src/cache/mod.rs:297-323 | a key is in the map exactly when one caller is between insert and remove, and then only one is |
| SingleFlight.LateSubscriber | src/cache/mod.rs:271-296 | a receiver cloned after the send and before the removal still sees the final status |
| SingleFlight.NoDeadlock | src/cache/mod.rs:270-326 | while a caller has not returned, some caller can move |
| SingleFlight.Progress | src/cache/mod.rs:270-326 | every step of a caller decreases the measure; a lost race is paid for by the insertion that causes it |
| SingleFlight.EveryRunEnds | src/cache/mod.rs:248-327 | N callers take at most N * (2N + 12) steps, and when none can move all have returned |
| SingleFlight.OkMeansRecorded | src/cache/mod.rs:312-317 | Ok only if the chunk was in the table with the requested length at the start, or a download of the run records it |
| SingleFlight.OkUnlessFailed | src/cache/mod.rs:248-327 | unless a download of the chunk fails in the run, every caller for it returns Ok, whether it hit, downloaded or waited |
| SingleFlight.WaiterFollows | src/cache/mod.rs:271-289 | a waiter that wakes up returns what its downloader ended with |
| SingleFlight.HitReturns | src/cache/mod.rs:258-268 | a hit returns Ok without touching the map or any channel |
| ConcurrentReads.ReaderStepRight | src/cache/mod.rs:138-172 | each transaction or file operation of a reader keeps its stream right and the cache crash-safe |
| ConcurrentReads.StreamsNeverWrong | src/cache/mod.rs:138-181 | at every moment of every interleaving a stream has delivered a prefix of the requested bytes; when it ends it is complete or has failed |
| ConcurrentReads.ScheduledReaderFinishes | src/cache/mod.rs:138-181 | a reader scheduled four times for each of its chunks has finished, whatever the evictor and other readers do |
| ConcurrentReads.StepLosesExactly | src/cache/mod.rs:146-151 | a step loses a chunk if and only if it unlinks a registered chunk's file or writes its entry back when the file is gone |
| ConcurrentReads.ComesBackExactly | src/cache/mod.rs:146-151 | after the evictor has removed file and entry, and until it removes the entry again, the chunk is registered without a file if and only if a reader held it in its touch and has moved since |
| ConcurrentReads.EntryComesBack | src/cache/mod.rs:148-151 | a run in which the touch registers a chunk whose entry and file have just been evicted |
| ConcurrentReads.LostChunkBreaksReads | src/cache/mod.rs:146-154 | every stream over such a chunk breaks |
| ConcurrentReads.ItemExactly | src/cache/mod.rs:138-172 | a reader gets an error if a file it has committed to is gone, and otherwise its chunk's bytes |
| ConcurrentReads.BreaksExactly | src/cache/mod.rs:138-181 | over every interleaving a stream breaks if and only if its reader finds gone the file of a chunk it had seen registered |
| ConcurrentReads.SparedReaderCompletes | src/cache/mod.rs:138-181 | a stream whose object loses no file delivers exactly the requested bytes |
| ConcurrentReads.TouchStamps | src/cache/mod.rs:148-151 | a touch stamps its entry with the clock's reading and changes no other |
| Utf8.DecodeEncode | src/utils.rs:122 | lossy decoding undoes encoding for every text |
| PercentCodec.S3PercentEncode | src/utils.rs:93-106 | the loop computes the encoder's specification |
| PercentCodec.DecodePercent | src/utils.rs:108-123 | the loop computes the decoder's specification, swallowed bytes included |
| PercentCodec.DecodeEncode | src/utils.rs:93-123 | decoding undoes encoding for every text |
| PercentCodec.NoSeparators | src/utils.rs:93-106 | encodings contain no separator of queries, paths or headers |
| PercentCodec.EncodeOne | src/utils.rs:96-103 | each byte as section 2 of RFC 3986 has it, escapes in upper case |
| PercentCodec.EncodeAppend | src/utils.rs:93-106 | encoding goes character by character |
| PercentCodec.AgreesExactly | src/utils.rs:108-123 | on which byte strings the decoder is the standard one, exactly |
| PercentCodec.DecodesWellEscaped | src/utils.rs:108-123 | in particular on those whose every percent sign starts an escape |
| PercentCodec.MalformedEscapes | src/utils.rs:112-120 | two inputs on which it is not |
| CopySource.RoundTrip | src/server/handlers.rs:225-236 | the header printed for a copy is read back as the same bucket and key if and only if the bucket is not empty, visible and without slash or percent sign, and the key has no question mark |
| CopySource.BucketWithPercent | src/proxy/mod.rs:416 | a literal witness: the bucket `a%41` is read as `aA` |
| CopySource.ParseGeneral | src/server/handlers.rs:229-236 | leading slashes and a query behind the key make no difference to bucket and key |
| QueryString.ParseCanonical | src/server/s3_api.rs:247-263 | the canonical query, parsed, gives the parameters back in canonical order |
| QueryString.CanonicalIdempotent | src/server/s3_api.rs:247-263 | making a canonical query canonical changes nothing |
| QueryString.CanonicalAgrees | src/proxy/mod.rs:161-171 | two canonical queries are equal exactly when the sorted parameters are |
| QueryString.CanonicalNormalForm | src/server/s3_api.rs:247-263 | with distinct names: equal exactly when the parameters are the same in any order |
| QueryString.CanonicalOrder | src/server/s3_api.rs:255 | names ascend, and parameters of one name keep their order |
| QueryString.PlusIsBlank | src/server/s3_api.rs:249 | a plus sign in a query is a blank |
| QueryString.ParseAppend | src/server/s3_api.rs:249 | parameters are separated by ampersands |
| QueryString.ParsePiece | src/server/s3_api.rs:249 | a parameter is cut at its first equals sign, or is a name alone |
| Text.TrimExactly | src/server/s3_api.rs:266-272 | trimming strips the blanks at both ends, all of them, and nothing else |
| Sorting.StringLeExactly | src/server/s3_api.rs:255 | the order of names: a beginning comes first, else the first difference decides |
| Credentials.NewFromStr | src/server/s3_api.rs:43-63 | the loop computes the key table |
| Credentials.PairsRoundTrip | src/server/s3_api.rs:43-63 | a printed list of storable pairs is read back, later pairs winning |
| Credentials.PairRoundTrip | src/server/s3_api.rs:43-63 | one pair is read back if and only if it is storable |
| SignThenVerify.AuthorizationRoundTrip | src/server/s3_api.rs:136-193 | the parser recovers exactly what was printed if and only if access key and region are visible and free of slashes and commas |
| SignThenVerify.LastFieldWins | src/server/s3_api.rs:147-157 | a repeated field counts with its last value |
| SignThenVerify.DerivationsAgree | src/server/s3_api.rs:232-238 | the client's key derivation and the verifier's are the same chain for the client's service |
| SignThenVerify.PrepareResult | src/proxy/mod.rs:122-243 | a request is prepared exactly when host, access key and region are valid header values, and which request, headers and body it then is |
| SignThenVerify.LinesAgree | src/server/s3_api.rs:266-272 | the two ways of writing canonical headers agree |
| SignThenVerify.RetainedAll | src/server/s3_api.rs:253-255 | dropping signature parameters changes the canonical query exactly when there is one |
| SignThenVerify.SignedIsAccepted | src/server/s3_api.rs:67-134 | every request the client prepares is accepted by a verifier with the same key pair, if its query carries no signature parameter |
| SignThenVerify.AcceptedExactly | src/server/s3_api.rs:111-115 | with collision-free primitives: accepted if and only if it carries none, and otherwise refused for its signature |
| SignatureScheme.SentHeaders | src/proxy/mod.rs:134-156 | host, time stamp and payload hash are set, every other header is the caller's |
| SignatureScheme.SignatureSent | src/proxy/mod.rs:158-240 | the Authorization header sent is the scheme's, written out: credential, ordered header names, and the HMAC chain over the four lines of the string to sign |
| SignatureScheme.VerdictFollows | src/server/s3_api.rs:67-134 | every request: accepted if and only if its access key is known and its signature is the written-out scheme's |
| SignatureScheme.NoCredentials | src/server/s3_api.rs:70-77 | a request without readable credentials is refused for its access key |
| SignatureScheme.PresignedVerdict | src/server/s3_api.rs:195-230 | a pre-signed URL's parameters are read back, and it is accepted if and only if its signature is the scheme's over the others |
| SignatureScheme.CaseIgnored | src/server/s3_api.rs:266-272 | the case of listed header names does not matter to the lines that are signed |
| SignatureScheme.TokenPassedOn | src/server/s3_api.rs:119-127 | the session token is the header's, or else the query's first |
| SignatureScheme.AnonymousSent | src/proxy/mod.rs:133-140 | without keys a request is sent with its host and otherwise as it is |
| SignatureScheme.HexWritten | src/proxy/mod.rs:152 | two lower-case digits for each byte |
| Tampering.CanonicalInjective | src/server/s3_api.rs:283-286 | for a list of signed headers, canonical requests are equal if and only if method, path, canonical query, header values and payload hash are |
| Tampering.VerdictExactly | src/server/s3_api.rs:67-117 | the verdict on every request that presents a signature of the client: accepted if and only if the secret is the one it was signed with and nothing that was signed differs |
| Tampering.WrongSecretRefused | src/server/s3_api.rs:111-115 | the client's own request is refused under another secret |
| Tampering.TamperedRefused | src/server/s3_api.rs:111-115 | a changed method, path, query, payload hash or signed header value is refused |
| SigningMethods.PrepareRequest | src/proxy/mod.rs:122-243 | the signer's program computes its specification |
| SigningMethods.SigV4Verifier.ExtractFromHeaders | src/server/s3_api.rs:136-193 | the field loop computes the extraction |
| SigningMethods.SigV4Verifier.BuildCanonicalRequest | src/server/s3_api.rs:241-287 | the verifier's canonical request |
| SigningMethods.SigV4Verifier.VerifyRequest | src/server/s3_api.rs:67-134 | the verifier's program computes its specification |
| SigningMethods.SignAndCheck | src/proxy/mod.rs:122-243 | prepare and verify, run one after the other: refused only for an invalid host |

## Left out

- HTTP serving, routing, middleware, error XML, date formatting, configuration, logging, and `cleanup_temp_files`, which
  does nothing after its existence check.
- URL construction (`build_url`), the generic fallback proxy and its header filtering: the URL is an input of signing.
- redb, serde_json, the real file system, power loss without fsync: tables are maps with atomic transactions, files
  are a map from paths to bytes.
- The upload runs as one step after the stream has been received; the model does not interleave it with the splitter,
  and a failed upload may still have stored any named object.
- Two concurrent PUTs of one key, and a PUT racing readers of that key: the code has no per-key lock and both share a
  temporary path.
- Cancelled downloads: a dropped downloader would leave a closed channel in the map.
- COPY with the evictor removing its source's chunks midway: `Interleaving` weaves removals into writes already decided,
  and COPY decides each chunk's writes when it gets there.
- A stream's consumer that stops after the first error: the model also touches the chunks after it, which changes
  access times only.
- The factor 0.9 for the target size: any target up to the limit is allowed. The 64-bit total of registered bytes is
  not wrapped; it would take 2^32 full entries.
- The wording of errors, and which status code each of them gets.
- Lower-casing of header names is ASCII only; names in an Authorization header are visible ASCII, names in a
  pre-signed query may not be.
- Transport between signer and verifier is the identity on requests.

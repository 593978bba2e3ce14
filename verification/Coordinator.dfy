/** The cache coordinator, operation by operation, each proved to perform exactly its log. */
module Coordinator {
  import opened Basics
  import opened ChunkKey
  import opened Blocks
  import opened CacheModel
  import opened Operations
  import opened Copying
  import opened PutOperation
  import Splitter
  import opened Database
  import opened Storage
  import opened Upstream
  import opened Journal

  /** One chunk's share of a ranged read. */
  datatype Fetch = Fetch(idx: u64, offset: nat, length: nat)

  /** The share of chunk `idx` in a read of [start, end). */
  function FetchOf(cs: nat, size: nat, start: nat, end: nat, idx: u64): Fetch
    requires cs > 0 && start < end <= size
    requires Quotient(start, cs) <= idx <= Quotient(end - 1, cs)
  {
    WindowInsideBlock(size, cs, start, end, idx);
    Fetch(idx, ReadStart(cs, start, idx) - idx * cs, ReadEnd(size, cs, end, idx) - ReadStart(cs, start, idx))
  }

  /** What one fetch delivers. */
  function Fetched(s: State, key: string, cs: nat, f: Fetch): Piece
    requires f.length > 0
  {
    if IsHit(s, ChunkId(key, f.idx)) then ReadFile(s.files, ChunkId(key, f.idx), f.offset, f.length)
    else UpstreamRange(s.upstream, key, f.idx * cs + f.offset, f.idx * cs + f.offset + f.length - 1)
  }

  /** The LRU touch of one chunk. */
  function Touch(s: State, id: ChunkId, clock: Clock): State {
    if IsHit(s, id) then s.(entries := s.entries[id := s.entries[id].(lastAccessedAt := clock(id.idx))]) else s
  }

  lemma FetchedWindow(s: State, key: string, cs: nat, idx: u64, base: nat, lo: nat, hi: nat)
    requires base == idx * cs && base <= lo < hi
    ensures Fetched(s, key, cs, Fetch(idx, lo - base, hi - lo))
            == if IsHit(s, ChunkId(key, idx)) then ReadFile(s.files, ChunkId(key, idx), lo - base, hi - lo)
               else UpstreamRange(s.upstream, key, lo, hi - 1)
  {
  }

  lemma FetchIsReadChunk(s: State, key: string, cs: nat, size: nat, start: nat, end: nat, idx: u64)
    requires cs > 0 && start < end <= size
    requires Quotient(start, cs) <= idx <= Quotient(end - 1, cs)
    ensures FetchOf(cs, size, start, end, idx).length > 0
    ensures Fetched(s, key, cs, FetchOf(cs, size, start, end, idx)) == ReadChunk(s, key, cs, size, start, end, idx)
  {
    WindowInsideBlock(size, cs, start, end, idx);
    FetchedWindow(s, key, cs, idx, idx * cs, ReadStart(cs, start, idx), ReadEnd(size, cs, end, idx));
  }

  /** Touching the chunks in turn: hits, files and upstream stay as they were when the read began. */
  lemma TouchNext(s: State, key: string, begin: nat, limit: nat, clock: Clock)
    requires begin <= limit < TWO_TO_THE_64
    ensures var t, id := Replay(s, TouchLog(s, key, begin, limit, clock)), ChunkId(key, limit);
            && t.upstream == s.upstream && t.objects == s.objects && t.files == s.files
            && (IsHit(t, id) <==> IsHit(s, id))
            && TouchEntry(t, id, clock) == TouchEntry(s, id, clock)
            && Replay(s, TouchLog(s, key, begin, limit + 1, clock)) == Touch(t, id, clock)
  {
    var id := ChunkId(key, limit);
    var log := TouchLog(s, key, begin, limit, clock);
    TouchEffect(s, key, begin, limit, clock);
    assert TouchLog(s, key, begin, limit + 1, clock) == log + TouchEntry(s, id, clock);
    if IsHit(s, id) {
      ReplayOne(s, log, PutEntry(id, s.entries[id].(lastAccessedAt := clock(id.idx))));
    } else {
      assert log + TouchEntry(s, id, clock) == log;
    }
  }

  /** The next chunk of a read, fetched in the state the earlier ones left behind. */
  lemma ReadNext(t: State, key: string, cs: nat, size: u64, start: u64, end: u64, first: nat, idx: nat, clock: Clock)
    requires cs > 0 && start < end <= size
    requires first == Quotient(start, cs) <= idx <= Quotient(end - 1, cs) < TWO_TO_THE_64
    ensures var u, f := Replay(t, TouchLog(t, key, first, idx, clock)), FetchOf(cs, size, start, end, idx);
            && f.idx == idx && f.length > 0
            && Replay(t, TouchLog(t, key, first, idx + 1, clock)) == Touch(u, ChunkId(key, idx), clock)
            && TouchLog(t, key, first, idx + 1, clock)
               == TouchLog(t, key, first, idx, clock) + TouchEntry(u, ChunkId(key, idx), clock)
            && ReadChunks(t, key, cs, size, start, end, first, idx + 1)
               == ReadChunks(t, key, cs, size, start, end, first, idx) + [Fetched(u, key, cs, f)]
  {
    FetchIsReadChunk(t, key, cs, size, start, end, idx);
    TouchNext(t, key, first, idx, clock);
    FetchedLater(t, Replay(t, TouchLog(t, key, first, idx, clock)), key, cs, FetchOf(cs, size, start, end, idx));
    ChunksNext(t, key, cs, size, start, end, first, idx);
  }

  /** Touches do not change what a fetch delivers. */
  lemma FetchedLater(t: State, u: State, key: string, cs: nat, f: Fetch)
    requires f.length > 0 && u.upstream == t.upstream && u.files == t.files
    requires IsHit(u, ChunkId(key, f.idx)) <==> IsHit(t, ChunkId(key, f.idx))
    ensures Fetched(u, key, cs, f) == Fetched(t, key, cs, f)
  {
  }

  lemma ChunksNext(t: State, key: string, cs: nat, size: u64, start: u64, end: u64, first: nat, idx: nat)
    requires cs > 0 && start < end <= size
    requires first == Quotient(start, cs) <= idx <= Quotient(end - 1, cs) < TWO_TO_THE_64
    ensures ReadChunks(t, key, cs, size, start, end, first, idx + 1)
            == ReadChunks(t, key, cs, size, start, end, first, idx) + [ReadChunk(t, key, cs, size, start, end, idx)]
  {
  }

  /** A read that began in state `t` and has fetched the chunks in [first, n): state, journal and items so far. */
  ghost predicate Walked(t: State, key: string, cs: nat, size: u64, start: u64, end: u64, first: nat, clock: Clock,
                         before: Log, n: nat, now: State, log: Log, items: seq<Piece>)
    requires cs > 0 && start < end <= size
    requires first == Quotient(start, cs) <= n <= Quotient(end - 1, cs) + 1 <= TWO_TO_THE_64
  {
    && now == Replay(t, TouchLog(t, key, first, n, clock))
    && log == before + TouchLog(t, key, first, n, clock)
    && items == ReadChunks(t, key, cs, size, start, end, first, n)
  }

  lemma WalkStarts(t: State, key: string, cs: nat, size: u64, start: u64, end: u64, first: nat, clock: Clock, before: Log)
    requires cs > 0 && start < end <= size && first == Quotient(start, cs) <= Quotient(end - 1, cs) + 1 <= TWO_TO_THE_64
    ensures Walked(t, key, cs, size, start, end, first, clock, before, first, t, before, [])
  {
    assert before + [] == before;
  }

  /** The log of a copy, one chunk longer. */
  lemma CopyGrows(before: Log, s: State, src: string, dest: string, idx: u64, files: Log)
    requires src in s.objects
    requires var from, target := ChunkId(src, idx), ChunkId(dest, idx);
             files == CopyFile(s.files, from, target)
    ensures before + CopyPrefix(s, src, dest, idx + 1)
            == if IsHit(s, ChunkId(src, idx)) then
                 before + CopyPrefix(s, src, dest, idx) + files + [PutEntry(ChunkId(dest, idx), s.entries[ChunkId(src, idx)])]
               else before + CopyPrefix(s, src, dest, idx)
  {
    var prefix := CopyPrefix(s, src, dest, idx);
    CopyPrefixStep(s, src, dest, idx + 1);
    if IsHit(s, ChunkId(src, idx)) {
      Regroup3(before, prefix, files, [PutEntry(ChunkId(dest, idx), s.entries[ChunkId(src, idx)])]);
      Associative(prefix, files, [PutEntry(ChunkId(dest, idx), s.entries[ChunkId(src, idx)])]);
    } else {
      assert prefix + CopyChunk(s, src, dest, idx) == prefix;
    }
  }

  /** State and journal of a copy that has dealt with the chunks below `n`. */
  ghost predicate Copied(s: State, src: string, dest: string, n: nat, before: Log, now: State, log: Log)
    requires n <= TWO_TO_THE_64
  {
    && src in s.objects
    && now == State(s.upstream, s.objects[dest := s.objects[src]], CopyEntries(s, src, dest, n), CopyFiles(s, src, dest, n))
    && log == before + CopyPrefix(s, src, dest, n)
  }

  /** The log of a refresh after whatever came before. */
  lemma RefreshJournal(before: Log, s: State, key: string, cs: nat, disk: Disk)
    requires cs > 0 && key in s.upstream
    ensures var meta := s.upstream[key].Meta();
            before + RefreshLog(s, key, cs, disk)
            == (if key in s.objects && Outdated(s.objects[key], meta) then before + DropLog(s, key, cs, disk) else before)
               + [PutObject(key, meta)]
  {
  }

  // --- the streaming splitter ---

  /** A full chunk is the same chunk of a longer body. */
  lemma SameBlock(n: nat, a: seq<byte>, b: seq<byte>, cs: nat)
    requires n > 0 && n * cs <= |a|
    ensures 0 <= (n - 1) * cs <= |a|
    ensures Block(a + b, cs, n - 1) == Block(a, cs, n - 1)
  {
    StartMonotone(|a|, cs, n - 1);
    BlockStable(a, b, cs, n - 1);
  }

  /** Chunks written from a longer body are the same chunks. */
  lemma {:induction false} SameBlocks(m: map<ChunkId, seq<byte>>, key: string, n: nat, a: seq<byte>, b: seq<byte>, cs: nat)
    requires n <= TWO_TO_THE_64 && n * cs <= |a|
    ensures PutIndexed(m, key, n, BlockOf(a + b, cs)) == PutIndexed(m, key, n, BlockOf(a, cs))
    ensures WriteChunks(key, a + b, cs, n) == WriteChunks(key, a, cs, n)
  {
    if n > 0 {
      SameBlock(n, a, b, cs);
      SameBlocks(m, key, n - 1, a, b, cs);
      assert BlockOf(a + b, cs)(n - 1) == BlockOf(a, cs)(n - 1);
    }
  }

  /** Where chunk `n` begins. */
  function Offset(cs: nat, n: nat): nat {
    if n == 0 then 0 else Offset(cs, n - 1) + cs
  }

  lemma {:induction false} OffsetIsProduct(cs: nat, n: nat)
    ensures Offset(cs, n) == n * cs
  {
    if n > 0 {
      OffsetIsProduct(cs, n - 1);
    }
  }

  /** The splitter's buffer: what has been accepted beyond the first `n` chunks. */
  predicate Buffered(buffer: seq<byte>, accepted: seq<byte>, cs: nat, n: nat) {
    Offset(cs, n) <= |accepted| && buffer == accepted[Offset(cs, n)..]
  }

  /** Draining one chunk from the front of the buffer. */
  lemma DrainOne(buffer: seq<byte>, accepted: seq<byte>, cs: nat, n: nat)
    requires cs > 0 && Buffered(buffer, accepted, cs, n)
    ensures n <= Quotient(|accepted|, cs)
    ensures |buffer| >= cs <==> n < Quotient(|accepted|, cs)
    ensures |buffer| >= cs ==>
              buffer[..cs] == Block(accepted, cs, n) && Buffered(buffer[cs..], accepted, cs, n + 1)
  {
    OffsetIsProduct(cs, n);
    OffsetIsProduct(cs, n + 1);
    DivUnique(|accepted|, cs, n);
    DivUnique(|accepted|, cs, n + 1);
    StartMonotone(|accepted|, cs, n);
    if |buffer| >= cs {
      DropDrop(accepted, Offset(cs, n), cs);
    }
  }

  /** One round of the drain loop. */
  lemma DrainRound(buffer: seq<byte>, accepted: seq<byte>, cs: nat, n: nat, chunks: seq<(u64, nat)>)
    requires cs > 0 && |accepted| < TWO_TO_THE_64 && Buffered(buffer, accepted, cs, n) && |buffer| >= cs
    requires |chunks| == n && Noted(chunks, |accepted|, cs)
    ensures n < Quotient(|accepted|, cs)
    ensures buffer[..cs] == BlockOf(accepted, cs)(n)
    ensures Buffered(buffer[cs..], accepted, cs, n + 1)
    ensures |buffer[cs..]| >= cs <==> n + 1 < Quotient(|accepted|, cs)
    ensures Noted(chunks + [(n, cs)], |accepted|, cs)
  {
    DrainOne(buffer, accepted, cs, n);
    DrainOne(buffer[cs..], accepted, cs, n + 1);
    BlockSizes(accepted, cs, n);
    NotedSnoc(chunks, |accepted|, cs, cs);
  }

  lemma DropDrop(s: seq<byte>, a: nat, b: nat)
    requires a + b <= |s|
    ensures s[a..][b..] == s[a + b..] && s[a..][..b] == s[a..a + b]
  {
  }

  lemma BufferMore(buffer: seq<byte>, accepted: seq<byte>, bytes: seq<byte>, cs: nat, n: nat)
    requires Buffered(buffer, accepted, cs, n)
    ensures Buffered(buffer + bytes, accepted + bytes, cs, n)
  {
  }

  /** What is left when no full chunk is: the last, partial chunk. */
  lemma LastBlock(buffer: seq<byte>, accepted: seq<byte>, cs: nat)
    requires cs > 0 && Buffered(buffer, accepted, cs, Quotient(|accepted|, cs))
    ensures |buffer| < cs
    ensures buffer == Block(accepted, cs, Quotient(|accepted|, cs))
    ensures |buffer| == BlockLen(|accepted|, cs, Quotient(|accepted|, cs))
    ensures NumChunks(|accepted|, cs) == Quotient(|accepted|, cs) + (if buffer == [] then 0 else 1)
  {
    var n := Quotient(|accepted|, cs);
    OffsetIsProduct(cs, n);
    DivBounds(|accepted|, cs);
    StartMonotone(|accepted|, cs, n);
    IndexInRange(|accepted|, cs, n);
    IndexInRange(|accepted|, cs, n + 1);
    Splitter.FullBelowCount(|accepted|, cs);
  }

  /** The sizes noted for the first `n` chunks written. */
  ghost predicate NotedTo(chunks: seq<(u64, nat)>, n: nat, len: nat, cs: nat)
    requires n <= |chunks|
  {
    n == 0 || (NotedTo(chunks, n - 1, len, cs) && chunks[n - 1] == (n - 1, BlockLen(len, cs, n - 1)))
  }

  ghost predicate Noted(chunks: seq<(u64, nat)>, len: nat, cs: nat) {
    NotedTo(chunks, |chunks|, len, cs)
  }

  /** The first `n` chunks of the body are written, noted and journaled. */
  ghost predicate Drained(key: string, accepted: seq<byte>, cs: nat, n: nat, chunks: seq<(u64, nat)>,
                          before: map<ChunkId, seq<byte>>, files: map<ChunkId, seq<byte>>, start: Log, log: Log)
  {
    && n <= TWO_TO_THE_64
    && files == PutIndexed(before, key, n, BlockOf(accepted, cs))
    && |chunks| == n && Noted(chunks, |accepted|, cs)
    && log == start + WriteChunks(key, accepted, cs, n)
  }

  lemma {:induction false} NotedPrefix(chunks: seq<(u64, nat)>, more: seq<(u64, nat)>, n: nat, len: nat, cs: nat)
    requires n <= |chunks| && chunks <= more
    ensures NotedTo(chunks, n, len, cs) <==> NotedTo(more, n, len, cs)
  {
    if n > 0 {
      NotedPrefix(chunks, more, n - 1, len, cs);
    }
  }

  lemma NotedSnoc(chunks: seq<(u64, nat)>, len: nat, cs: nat, size: nat)
    requires Noted(chunks, len, cs) && |chunks| < TWO_TO_THE_64 && size == BlockLen(len, cs, |chunks|)
    ensures Noted(chunks + [(|chunks|, size)], len, cs)
  {
    NotedPrefix(chunks, chunks + [(|chunks|, size)], |chunks|, len, cs);
  }

  lemma {:induction false} NotedAt(chunks: seq<(u64, nat)>, n: nat, len: nat, cs: nat, j: nat)
    requires j < n <= |chunks| && NotedTo(chunks, n, len, cs)
    ensures chunks[j] == (j, BlockLen(len, cs, j))
  {
    if j < n - 1 {
      NotedAt(chunks, n - 1, len, cs, j);
    }
  }

  /** Registering a noted chunk is the next write of the registration. */
  lemma NotedEntry(key: string, chunks: seq<(u64, nat)>, len: nat, cs: nat, j: nat, clock: Clock)
    requires Noted(chunks, len, cs) && j < |chunks| < TWO_TO_THE_64
    ensures chunks[j].0 == j
    ensures var entry := ChunkMeta(Truncate32(chunks[j].1), clock(j), Complete);
            && entry == EntryOf(len, cs, clock)(j)
            && RegisterChunks(key, len, cs, j + 1, clock)
               == RegisterChunks(key, len, cs, j, clock) + [PutEntry(ChunkId(key, j), entry)]
  {
    NotedAt(chunks, |chunks|, len, cs, j);
  }

  /** Full chunks keep their size when more bytes arrive. */
  lemma {:induction false} NotedMore(chunks: seq<(u64, nat)>, n: nat, len: nat, more: nat, cs: nat)
    requires n <= |chunks| && NotedTo(chunks, n, len, cs) && n * cs <= len <= more
    ensures NotedTo(chunks, n, more, cs)
  {
    if n > 0 {
      StartMonotone(len, cs, n - 1);
      NotedMore(chunks, n - 1, len, more, cs);
      FullLength(len, cs, n - 1, n);
      FullLength(more, cs, n - 1, n);
    }
  }

  lemma FullLength(len: nat, cs: nat, j: nat, n: nat)
    requires j < n && n * cs <= len
    ensures BlockLen(len, cs, j) == cs
  {
    MulMonotone(j + 1, n, cs);
    StartMonotone(len, cs, j);
  }

  lemma Tail(pieces: seq<Piece>, i: nat)
    requires i < |pieces|
    ensures pieces[i..][0] == pieces[i] && pieces[i..][1..] == pieces[i + 1..]
  {
  }

  /** At the end of the stream only the buffer is left to write. */
  lemma IngestEnd(key: string, accepted: seq<byte>, channel: Option<nat>, buffer: seq<byte>, cs: nat, disk: Disk)
    requires cs > 0 && |accepted| < TWO_TO_THE_64 && Contents([]) == []
    requires Buffered(buffer, accepted, cs, Quotient(|accepted|, cs))
    ensures var full := Quotient(|accepted|, cs);
            var ok := buffer == [] || ChunkId(key, full) !in disk.unwritable;
            Ingest(key, accepted, [], channel, cs, disk)
            == Ingested(accepted, if ok then NumChunks(|accepted|, cs) else full, ok)
  {
    LastBlock(buffer, accepted, cs);
    Splitter.EmptyStream(key, accepted, channel, cs, disk);
  }

  /** Accepting one more piece keeps what the drain loop relies on. */
  lemma PieceAccepted(key: string, accepted: seq<byte>, pieces: seq<Piece>, buffer: seq<byte>, chunks: seq<(u64, nat)>,
                      before: map<ChunkId, seq<byte>>, n: nat, cs: nat)
    requires cs > 0 && pieces != [] && pieces[0].Data? && |accepted| + |Contents(pieces)| < TWO_TO_THE_64
    requires n == Quotient(|accepted|, cs) == |chunks| && Buffered(buffer, accepted, cs, n)
    requires Noted(chunks, |accepted|, cs)
    ensures var more := accepted + pieces[0].bytes;
            && |more| + |Contents(pieces[1..])| < TWO_TO_THE_64
            && n <= Quotient(|more|, cs)
            && Buffered(buffer + pieces[0].bytes, more, cs, n)
            && PutIndexed(before, key, n, BlockOf(more, cs)) == PutIndexed(before, key, n, BlockOf(accepted, cs))
            && WriteChunks(key, more, cs, n) == WriteChunks(key, accepted, cs, n)
            && Noted(chunks, |more|, cs)
  {
    Splitter.ContentsCons(pieces);
    DivBounds(|accepted|, cs);
    Splitter.NumChunksMonotone(|accepted|, |accepted + pieces[0].bytes|, cs);
    BufferMore(buffer, accepted, pieces[0].bytes, cs, n);
    SameBlocks(before, key, n, accepted, pieces[0].bytes, cs);
    NotedMore(chunks, n, |accepted|, |accepted + pieces[0].bytes|, cs);
  }

  /** The four stages of a PUT, end to end. */
  lemma PutJournal(before: Log, s: State, p: Put, cs: nat, disk: Disk, clock: Clock)
    requires cs > 0 && p.ingested.written < TWO_TO_THE_64
    ensures before + p.Log(s, cs, disk, clock)
            == before + DropLog(s, p.key, cs, disk) + WriteChunks(p.key, p.ingested.accepted, cs, p.ingested.written)
               + CommitLog(p.key, p.upload.Effect())
               + FinishPut(p.key, cs, p.ingested, p.declared, p.contentType, p.upload, disk, clock)
  {
  }

  /** A read is the refresh and then a walk over the chunks of the range. */
  lemma ReadInSteps(s: State, key: string, cs: nat, start: u64, end: u64, disk: Disk, clock: Clock)
    requires cs > 0 && key in s.upstream
    ensures var t, size := Replay(s, RefreshLog(s, key, cs, disk)), |s.upstream[key].content|;
            && ReadLog(s, key, cs, start, end, disk, clock)
               == RefreshLog(s, key, cs, disk) + WalkLog(t, key, cs, size, start, end, clock)
            && Replay(s, ReadLog(s, key, cs, start, end, disk, clock))
               == Replay(t, WalkLog(t, key, cs, size, start, end, clock))
  {
    var refresh, size := RefreshLog(s, key, cs, disk), |s.upstream[key].content|;
    ReplayConcat(s, refresh, WalkLog(Replay(s, refresh), key, cs, size, start, end, clock));
  }

  /** The LRU touches of a read of [start, end). */
  function WalkLog(t: State, key: string, cs: nat, size: u64, start: u64, end: u64, clock: Clock): Log
    requires cs > 0
  {
    TouchLog(t, key, ReadFrom(size, cs, start, end), ReadTo(size, cs, start, end), clock)
  }

  lemma WalkNothing(t: State, key: string, cs: nat, size: u64, start: u64, end: u64, clock: Clock)
    requires cs > 0 && start >= Min(end, size)
    ensures WalkLog(t, key, cs, size, start, end, clock) == []
    ensures ReadPieces(t, key, cs, size, start, end) == [Data([])]
  {
  }

  lemma WalkChunks(t: State, key: string, cs: nat, size: u64, start: u64, end: u64, clock: Clock)
    requires cs > 0 && start < Min(end, size)
    ensures var first, limit := Quotient(start, cs), Quotient(Min(end, size) - 1, cs) + 1;
            && first <= limit <= TWO_TO_THE_64
            && WalkLog(t, key, cs, size, start, end, clock) == TouchLog(t, key, first, limit, clock)
            && ReadPieces(t, key, cs, size, start, end) == ReadChunks(t, key, cs, size, start, Min(end, size), first, limit)
  {
    assert ReadFrom(size, cs, start, end) <= ReadTo(size, cs, start, end) <= TWO_TO_THE_64;
  }

  /** A walk to the end of the range is the whole read. */
  lemma WalkEnds(t: State, key: string, cs: nat, size: u64, start: u64, end: u64, clock: Clock, before: Log, n: nat,
                 now: State, log: Log, items: seq<Piece>)
    requires cs > 0 && start < Min(end, size)
    requires Quotient(start, cs) <= n == Quotient(Min(end, size) - 1, cs) + 1 <= TWO_TO_THE_64
    requires Walked(t, key, cs, size, start, Min(end, size), Quotient(start, cs), clock, before, n, now, log, items)
    ensures items == ReadPieces(t, key, cs, size, start, end)
    ensures now == Replay(t, WalkLog(t, key, cs, size, start, end, clock))
    ensures log == before + WalkLog(t, key, cs, size, start, end, clock)
  {
    WalkChunks(t, key, cs, size, start, end, clock);
  }

  /** A range that is not empty begins before it ends, in chunks as in bytes. */
  lemma RangeOrdered(cs: nat, start: u64, stop: u64)
    requires cs > 0 && start < stop
    ensures 0 <= Quotient(start, cs) <= Quotient(stop - 1, cs) < TWO_TO_THE_64
  {
    DivBounds(start, cs);
    DivBounds(stop - 1, cs);
    DivUnique(stop - 1, cs, Quotient(start, cs));
  }

  // --- download_and_cache_chunk ---

  /** Upstream answers with exactly the bytes asked for. */
  predicate DownloadFits(s: State, key: string, startByte: u64, endByte: u64)
    requires startByte < endByte
  {
    var body := UpstreamRange(s.upstream, key, startByte, endByte - 1);
    body.Data? && |body.bytes| == endByte - startByte
  }

  /** What a download writes. */
  function DownloadLog(s: State, ok: bool, key: string, idx: u64, startByte: u64, endByte: u64, now: int): Log
    requires startByte < endByte && (ok ==> DownloadFits(s, key, startByte, endByte))
  {
    if ok then
      [SetFile(ChunkId(key, idx), UpstreamRange(s.upstream, key, startByte, endByte - 1).bytes),
       PutEntry(ChunkId(key, idx), ChunkMeta(Truncate32(endByte - startByte), now, Complete))]
    else []
  }

  lemma ReplayTwo(s: State, a: Write, b: Write)
    ensures Replay(s, [a, b]) == Apply(Apply(s, a), b)
    ensures [a] + [b] == [a, b]
  {
    ReplayOne(s, [], a);
    ReplayOne(s, [a], b);
    assert [] + [a] == [a];
  }

  class CacheCoordinator {
    const db: MetadataDb
    const storage: Storage
    const proxy: ProxyClient
    const chunkSize: nat
    const journal: Journal

    ghost predicate Valid()
      reads this, db, storage
    {
      && chunkSize > 0 && db.Valid() && storage.Valid()
      && db.journal == journal && storage.journal == journal && proxy.journal == journal
    }

    ghost function Now(): State
      reads this, db, storage, proxy
    {
      State(proxy.store, db.objects, db.entries, storage.files)
    }

    constructor (db: MetadataDb, storage: Storage, proxy: ProxyClient, chunkSize: nat)
      requires chunkSize > 0 && db.Valid() && storage.Valid()
      requires db.journal == storage.journal == proxy.journal
      ensures Valid()
      ensures this.db == db && this.storage == storage && this.proxy == proxy && this.chunkSize == chunkSize
    {
      this.db, this.storage, this.proxy, this.chunkSize, this.journal := db, storage, proxy, chunkSize, db.journal;
    }

    /** How many chunks an object of `len` bytes has. */
    method CountChunks(len: u64) returns (n: nat)
      requires chunkSize > 0
      ensures n == NumChunks(len, chunkSize)
    {
      if len > 0 {
        QuotientIsDivision(len - 1, chunkSize);
        n := (len - 1) / chunkSize + 1;
      } else {
        n := 0;
      }
    }

    /** Removes one chunk, its file before its entry. */
    method DropChunk(id: ChunkId, disk: Disk)
      requires Valid()
      modifies db, storage, journal
      ensures Valid() && db.objects == old(db.objects)
      ensures db.entries == old(db.entries) - {id}
      ensures storage.files == if id in disk.undeletable then old(storage.files) else old(storage.files) - {id}
      ensures journal.log == old(journal.log) + DeleteChunkFile(id, disk) + [DeleteEntry(id)]
    {
      var _ := storage.DeleteChunk(id, disk);
      db.DeleteChunk(id);
    }

    /** Removes the chunks below `n`. */
    method DropChunkRange(key: string, n: nat, disk: Disk)
      requires Valid() && n <= TWO_TO_THE_64
      modifies db, storage, journal
      ensures Valid() && db.objects == old(db.objects)
      ensures db.entries == WithoutChunks(old(db.entries), key, n)
      ensures storage.files == WithoutFiles(old(storage.files), key, n, disk)
      ensures journal.log == old(journal.log) + DropChunks(key, n, disk)
    {
      WithoutChunksStep(db.entries, key, 0);
      WithoutFilesStep(storage.files, key, 0, disk);
      for idx := 0 to n
        invariant Valid() && db.objects == old(db.objects)
        invariant db.entries == WithoutChunks(old(db.entries), key, idx)
        invariant storage.files == WithoutFiles(old(storage.files), key, idx, disk)
        invariant journal.log == old(journal.log) + DropChunks(key, idx, disk)
      {
        var id := ChunkId(key, idx);
        Regroup3(old(journal.log), DropChunks(key, idx, disk), DeleteChunkFile(id, disk), [DeleteEntry(id)]);
        WithoutChunksStep(old(db.entries), key, idx + 1);
        WithoutFilesStep(old(storage.files), key, idx + 1, disk);
        DropChunk(id, disk);
      }
    }

    /** Removes every chunk the record accounts for, and then the record. */
    method DropCacheForObject(key: string, disk: Disk)
      requires Valid()
      modifies db, storage, journal
      ensures Valid()
      ensures Now() == Replay(old(Now()), DropLog(old(Now()), key, chunkSize, disk))
      ensures journal.log == old(journal.log) + DropLog(old(Now()), key, chunkSize, disk)
    {
      ghost var s, before := Now(), journal.log;
      DropEffect(s, key, chunkSize, disk);
      var meta := db.GetObject(key);
      if meta.Some? {
        var numChunks := CountChunks(meta.value.contentLength);
        DropChunkRange(key, numChunks, disk);
      } else {
        WithoutChunksStep(db.entries, key, 0);
        WithoutFilesStep(storage.files, key, 0, disk);
      }
      db.DeleteObject(key);
      assert journal.log == before + DropLog(s, key, chunkSize, disk);
    }

    /** Asks upstream first, always; drops the cached chunks of another version; records what upstream said. */
    method GetObjectMetadata(key: string, disk: Disk) returns (meta: Option<ObjectMeta>)
      requires Valid()
      modifies db, storage, journal
      ensures Valid()
      ensures key !in old(proxy.store) ==> meta == None && Now() == old(Now()) && journal.log == old(journal.log)
      ensures key in old(proxy.store) ==>
                && meta == Some(old(proxy.store)[key].Meta())
                && Now() == Replay(old(Now()), RefreshLog(old(Now()), key, chunkSize, disk))
                && journal.log == old(journal.log) + RefreshLog(old(Now()), key, chunkSize, disk)
    {
      ghost var s := Now();
      meta := proxy.HeadObject(key);
      if meta.None? {
        return;
      }
      RefreshEffect(s, key, chunkSize, disk);
      RefreshJournal(journal.log, s, key, chunkSize, disk);
      var local := db.GetObject(key);
      if local.Some? && (local.value.etag != meta.value.etag || local.value.contentLength != meta.value.contentLength) {
        DropCacheForObject(key, disk);
      }
      db.PutObject(key, meta.value);
    }

    /** One chunk of a read: from disk on a hit, with an LRU touch; otherwise straight from upstream, uncached. */
    method FetchChunk(key: string, f: Fetch, clock: Clock) returns (p: Piece)
      requires Valid() && f.length > 0
      modifies db, journal
      ensures Valid()
      ensures Now() == Touch(old(Now()), ChunkId(key, f.idx), clock)
      ensures journal.log == old(journal.log) + TouchEntry(old(Now()), ChunkId(key, f.idx), clock)
      ensures p == Fetched(old(Now()), key, chunkSize, f)
    {
      var id := ChunkId(key, f.idx);
      var isCached := false;
      var chunk := db.GetChunk(id);
      if chunk.Some? {
        isCached := chunk.value.status == Complete;
      }
      if isCached {
        var again := db.GetChunk(id);
        if again.Some? {
          db.PutChunk(id, again.value.(lastAccessedAt := clock(f.idx)));
        }
        p := storage.ReadChunkRange(id, f.offset, f.length);
      } else {
        var readStart := f.idx * chunkSize + f.offset;
        p := proxy.GetObjectRange(key, readStart, readStart + f.length - 1);
      }
    }

    /** Which part of which chunk a read of [start, end) needs. */
    method PlanFetches(size: u64, start: u64, end: u64) returns (fetches: seq<Fetch>)
      requires chunkSize > 0 && start < end <= size
      ensures Quotient(start, chunkSize) <= Quotient(end - 1, chunkSize) < TWO_TO_THE_64
      ensures |fetches| == Quotient(end - 1, chunkSize) + 1 - Quotient(start, chunkSize)
      ensures forall i :: 0 <= i < |fetches| ==>
                fetches[i] == FetchOf(chunkSize, size, start, end, Quotient(start, chunkSize) + i)
    {
      var startChunk, endChunk := start / chunkSize, (end - 1) / chunkSize;
      QuotientIsDivision(start, chunkSize);
      QuotientIsDivision(end - 1, chunkSize);
      DivBounds(start, chunkSize);
      DivUnique(end - 1, chunkSize, startChunk);
      fetches := [];
      for idx := startChunk to endChunk + 1
        invariant |fetches| == idx - startChunk
        invariant forall i :: 0 <= i < |fetches| ==>
                    fetches[i] == FetchOf(chunkSize, size, start, end, startChunk + i)
      {
        WindowInsideBlock(size, chunkSize, start, end, idx);
        var chunkStartByte := idx * chunkSize;
        var chunkEndByte := Min((idx + 1) * chunkSize, size);
        var readStart := Max(start, chunkStartByte);
        var readEnd := Min(end, chunkEndByte);
        fetches := fetches + [Fetch(idx, readStart - chunkStartByte, readEnd - readStart)];
      }
    }

    /** Resolves one fetch of a read that began in state `t`. */
    method FetchNext(key: string, f: Fetch, clock: Clock, ghost t: State, ghost size: u64, ghost start: u64, ghost end: u64,
                     ghost first: nat, ghost before: Log, ghost items: seq<Piece>)
      returns (item: Piece)
      requires Valid() && start < end <= size
      requires first == Quotient(start, chunkSize) <= f.idx <= Quotient(end - 1, chunkSize) < TWO_TO_THE_64
      requires f == FetchOf(chunkSize, size, start, end, f.idx)
      requires Walked(t, key, chunkSize, size, start, end, first, clock, before, f.idx, Now(), journal.log, items)
      modifies db, journal
      ensures Valid()
      ensures Walked(t, key, chunkSize, size, start, end, first, clock, before, f.idx + 1, Now(), journal.log, items + [item])
    {
      ReadNext(t, key, chunkSize, size, start, end, first, f.idx, clock);
      Associative(before, TouchLog(t, key, first, f.idx, clock), TouchEntry(Now(), ChunkId(key, f.idx), clock));
      item := FetchChunk(key, f, clock);
    }

    /** Resolves the fetches one after the other. */
    method StreamFetches(key: string, fetches: seq<Fetch>, clock: Clock, ghost size: u64, ghost start: u64, ghost end: u64,
                         ghost first: nat)
      returns (items: seq<Piece>)
      requires Valid() && start < end <= size
      requires first == Quotient(start, chunkSize) && first + |fetches| == Quotient(end - 1, chunkSize) + 1 <= TWO_TO_THE_64
      requires forall i :: 0 <= i < |fetches| ==> fetches[i] == FetchOf(chunkSize, size, start, end, first + i)
      modifies db, journal
      ensures Valid()
      ensures Walked(old(Now()), key, chunkSize, size, start, end, first, clock, old(journal.log), first + |fetches|,
                     Now(), journal.log, items)
    {
      ghost var t, before := Now(), journal.log;
      items := [];
      WalkStarts(t, key, chunkSize, size, start, end, first, clock, before);
      for i := 0 to |fetches|
        invariant Valid()
        invariant Walked(t, key, chunkSize, size, start, end, first, clock, before, first + i, Now(), journal.log, items)
      {
        assert fetches[i] == FetchOf(chunkSize, size, start, end, first + i);
        var item := FetchNext(key, fetches[i], clock, t, size, start, end, first, before, items);
        items := items + [item];
      }
    }

    /** Streams the chunks of [start, end) of an object of `size` bytes in order. */
    method StreamRange(key: string, size: u64, start: u64, end: u64, clock: Clock) returns (items: seq<Piece>)
      requires Valid()
      modifies db, journal
      ensures Valid()
      ensures items == ReadPieces(old(Now()), key, chunkSize, size, start, end)
      ensures Now() == Replay(old(Now()), WalkLog(old(Now()), key, chunkSize, size, start, end, clock))
      ensures journal.log == old(journal.log) + WalkLog(old(Now()), key, chunkSize, size, start, end, clock)
    {
      var stop := Min(end, size);
      if start >= stop {
        WalkNothing(Now(), key, chunkSize, size, start, end, clock);
        return [Data([])];
      }
      ghost var t, before := Now(), journal.log;
      RangeOrdered(chunkSize, start, stop);
      var fetches := PlanFetches(size, start, stop);
      items := StreamFetches(key, fetches, clock, size, start, stop, Quotient(start, chunkSize));
      WalkEnds(t, key, chunkSize, size, start, end, clock, before, Quotient(stop - 1, chunkSize) + 1, Now(), journal.log,
               items);
    }

    /** Refreshes the metadata, then streams the range. */
    method ReadRange(key: string, start: u64, end: u64, disk: Disk, clock: Clock) returns (pieces: Option<seq<Piece>>)
      requires Valid()
      modifies db, storage, journal
      ensures Valid()
      ensures key !in old(proxy.store) ==> pieces == None && Now() == old(Now()) && journal.log == old(journal.log)
      ensures key in old(proxy.store) ==>
                var s := old(Now());
                && pieces == Some(ReadPieces(Replay(s, RefreshLog(s, key, chunkSize, disk)), key, chunkSize,
                                             |s.upstream[key].content|, start, end))
                && Now() == Replay(s, ReadLog(s, key, chunkSize, start, end, disk, clock))
                && journal.log == old(journal.log) + ReadLog(s, key, chunkSize, start, end, disk, clock)
    {
      ghost var s, before := Now(), journal.log;
      var meta := GetObjectMetadata(key, disk);
      if meta.None? {
        return None;
      }
      ReadInSteps(s, key, chunkSize, start, end, disk, clock);
      Associative(before, RefreshLog(s, key, chunkSize, disk),
              WalkLog(Now(), key, chunkSize, meta.value.contentLength, start, end, clock));
      var items := StreamRange(key, meta.value.contentLength, start, end, clock);
      pieces := Some(items);
    }

    /** Copies one chunk, if it is complete: file first, then entry. */
    method CopyOne(src: string, dest: string, idx: u64, ghost s: State, ghost before: Log)
      requires Valid() && Copied(s, src, dest, idx, before, Now(), journal.log)
      modifies db, storage, journal
      ensures Valid() && Copied(s, src, dest, idx + 1, before, Now(), journal.log)
    {
      var from, target := ChunkId(src, idx), ChunkId(dest, idx);
      CopyGrows(before, s, src, dest, idx, CopyFile(s.files, from, target));
      CopyEntriesAt(s, src, dest, idx, from);
      CopyFilesAt(s, src, dest, idx, from);
      var chunk := db.GetChunk(from);
      if chunk.Some? && chunk.value.status == Complete {
        storage.CopyChunkFile(from, target);
        db.PutChunk(target, chunk.value);
      }
    }

    /** Gives the destination the source's record and its complete chunks. */
    method CopyCacheObject(src: string, dest: string)
      requires Valid()
      modifies db, storage, journal
      ensures Valid()
      ensures Now() == Replay(old(Now()), CopyLog(old(Now()), src, dest, chunkSize))
      ensures journal.log == old(journal.log) + CopyLog(old(Now()), src, dest, chunkSize)
    {
      ghost var s, before := Now(), journal.log;
      var meta := db.GetObject(src);
      if meta.Some? {
        db.PutObject(dest, meta.value);
        var numChunks := CountChunks(meta.value.contentLength);
        assert journal.log == before + CopyPrefix(s, src, dest, 0);
        for idx := 0 to numChunks
          invariant Valid() && Copied(s, src, dest, idx, before, Now(), journal.log)
        {
          CopyOne(src, dest, idx, s, before);
        }
        CopyChunksEffect(s, src, dest, numChunks);
        assert CopyLog(s, src, dest, chunkSize) == CopyPrefix(s, src, dest, numChunks);
      }
    }

    /** Takes one full chunk off the buffer and writes it out. */
    method WriteFullChunk(key: string, buffer: seq<byte>, current: nat, chunks: seq<(u64, nat)>, disk: Disk,
                          ghost accepted: seq<byte>, ghost before: map<ChunkId, seq<byte>>, ghost start: Log)
      returns (ok: bool, rest: seq<byte>, written: seq<(u64, nat)>)
      requires Valid() && |accepted| < TWO_TO_THE_64 && current < TWO_TO_THE_64
      requires Buffered(buffer, accepted, chunkSize, current) && |buffer| >= chunkSize
      requires Drained(key, accepted, chunkSize, current, chunks, before, storage.files, start, journal.log)
      modifies storage, journal
      ensures Valid()
      ensures ok <==> ChunkId(key, current) !in disk.unwritable
      ensures !ok ==> Drained(key, accepted, chunkSize, current, written, before, storage.files, start, journal.log)
      ensures ok ==>
                && Buffered(rest, accepted, chunkSize, current + 1)
                && current < Quotient(|accepted|, chunkSize)
                && (|rest| >= chunkSize <==> current + 1 < Quotient(|accepted|, chunkSize))
                && Drained(key, accepted, chunkSize, current + 1, written, before, storage.files, start, journal.log)
    {
      DrainRound(buffer, accepted, chunkSize, current, chunks);
      var chunkData := buffer[..chunkSize];
      rest, written := buffer[chunkSize..], chunks;
      Associative(start, WriteChunks(key, accepted, chunkSize, current),
                  [SetFile(ChunkId(key, current), Block(accepted, chunkSize, current))]);
      var done, _ := storage.WriteChunk(ChunkId(key, current), chunkData, disk, 0);
      if done {
        written := written + [(current, chunkSize)];
      }
      ok := done;
    }

    /** Writes out full chunks while the buffer holds one; stops at the first the disk refuses. */
    method DrainFullChunks(key: string, buffer: seq<byte>, current: nat, chunks: seq<(u64, nat)>, disk: Disk,
                           ghost accepted: seq<byte>, ghost before: map<ChunkId, seq<byte>>, ghost start: Log)
      returns (ok: bool, rest: seq<byte>, next: nat, written: seq<(u64, nat)>)
      requires Valid() && |accepted| < TWO_TO_THE_64
      requires Buffered(buffer, accepted, chunkSize, current)
      requires current <= Quotient(|accepted|, chunkSize)
      requires Drained(key, accepted, chunkSize, current, chunks, before, storage.files, start, journal.log)
      modifies storage, journal
      ensures Valid()
      ensures next == FirstUnwritable(key, current, Quotient(|accepted|, chunkSize), disk)
      ensures ok <==> next == Quotient(|accepted|, chunkSize)
      ensures ok ==> Buffered(rest, accepted, chunkSize, next)
      ensures Drained(key, accepted, chunkSize, next, written, before, storage.files, start, journal.log)
    {
      rest, next, written := buffer, current, chunks;
      ghost var full := Quotient(|accepted|, chunkSize);
      DrainOne(rest, accepted, chunkSize, next);
      while |rest| >= chunkSize
        invariant Valid()
        invariant current <= next <= full
        invariant FirstUnwritable(key, next, full, disk) == FirstUnwritable(key, current, full, disk)
        invariant Buffered(rest, accepted, chunkSize, next)
        invariant |rest| >= chunkSize <==> next < full
        invariant Drained(key, accepted, chunkSize, next, written, before, storage.files, start, journal.log)
        decreases full - next
      {
        var done;
        done, rest, written := WriteFullChunk(key, rest, next, written, disk, accepted, before, start);
        if !done {
          return false, rest, next, written;
        }
        next := next + 1;
      }
      ok := true;
    }

    /** At the end of the stream: the partial chunk, if there is one. */
    method FlushBuffer(key: string, buffer: seq<byte>, current: nat, chunks: seq<(u64, nat)>, disk: Disk,
                       ghost accepted: seq<byte>, ghost before: map<ChunkId, seq<byte>>, ghost start: Log)
      returns (ok: bool, written: seq<(u64, nat)>)
      requires Valid() && |accepted| < TWO_TO_THE_64
      requires current == Quotient(|accepted|, chunkSize) == |chunks| && Buffered(buffer, accepted, chunkSize, current)
      requires storage.files == PutIndexed(before, key, current, BlockOf(accepted, chunkSize))
      requires Noted(chunks, |accepted|, chunkSize)
      requires journal.log == start + WriteChunks(key, accepted, chunkSize, current)
      modifies storage, journal
      ensures Valid()
      ensures ok <==> buffer == [] || ChunkId(key, current) !in disk.unwritable
      ensures var n := if ok then NumChunks(|accepted|, chunkSize) else current;
              && storage.files == PutIndexed(before, key, n, BlockOf(accepted, chunkSize))
              && journal.log == start + WriteChunks(key, accepted, chunkSize, n)
              && |written| == n && Noted(written, |accepted|, chunkSize)
    {
      LastBlock(buffer, accepted, chunkSize);
      Associative(start, WriteChunks(key, accepted, chunkSize, current), [SetFile(ChunkId(key, current), buffer)]);
      ok, written := true, chunks;
      if buffer != [] {
        var done, _ := storage.WriteChunk(ChunkId(key, current), buffer, disk, 0);
        if done {
          NotedSnoc(written, |accepted|, chunkSize, |buffer|);
          written := written + [(current, |buffer|)];
        } else {
          ok := false;
        }
      }
    }

    /**
     * Takes the body stream piece by piece: each piece goes to the upload channel and into the buffer, full chunks
     * go to disk, and the partial one follows at the end.
     */
    method SplitStream(key: string, pieces: Stream, closedAt: Option<nat>, disk: Disk)
      returns (ok: bool, current: nat, written: seq<(u64, nat)>)
      requires Valid()
      modifies storage, journal
      ensures Valid()
      ensures var r := Ingest(key, [], pieces, closedAt, chunkSize, disk);
              && ok == r.ok
              && storage.files == PutIndexed(old(storage.files), key, r.written, BlockOf(r.accepted, chunkSize))
              && journal.log == old(journal.log) + WriteChunks(key, r.accepted, chunkSize, r.written)
              && (ok ==> |written| == r.written && Noted(written, |r.accepted|, chunkSize))
              && (!ok ==> current == r.written)
    {
      ghost var before, start := storage.files, journal.log;
      ghost var accepted: seq<byte> := [];
      var buffer: seq<byte> := [];
      var channel := closedAt;
      current, written := 0, [];
      assert pieces[0..] == pieces;
      for i := 0 to |pieces|
        invariant Valid()
        invariant |accepted| + |Contents(pieces[i..])| < TWO_TO_THE_64
        invariant Ingest(key, accepted, pieces[i..], channel, chunkSize, disk)
                  == Ingest(key, [], pieces, closedAt, chunkSize, disk)
        invariant current == Quotient(|accepted|, chunkSize) && Buffered(buffer, accepted, chunkSize, current)
        invariant storage.files == PutIndexed(before, key, current, BlockOf(accepted, chunkSize))
        invariant |written| == current && Noted(written, |accepted|, chunkSize)
        invariant journal.log == start + WriteChunks(key, accepted, chunkSize, current)
      {
        Tail(pieces, i);
        if pieces[i].Broken? {
          return false, current, written;
        }
        var bytes := pieces[i].bytes;
        if channel == Some(0) {
          return false, current, written;
        }
        PieceAccepted(key, accepted, pieces[i..], buffer, written, before, current, chunkSize);
        Splitter.IngestUnroll(key, accepted, pieces[i..], channel, chunkSize, disk);
        channel := AfterOne(channel);
        accepted := accepted + bytes;
        buffer := buffer + bytes;
        var drained;
        drained, buffer, current, written := DrainFullChunks(key, buffer, current, written, disk, accepted, before, start);
        if !drained {
          return false, current, written;
        }
      }
      assert pieces[|pieces|..] == [];
      IngestEnd(key, accepted, channel, buffer, chunkSize, disk);
      ok, written := FlushBuffer(key, buffer, current, written, disk, accepted, before, start);
    }

    /** After a successful upload: one entry per chunk written. */
    method RegisterWritten(key: string, written: seq<(u64, nat)>, clock: Clock, ghost len: nat)
      requires Valid() && |written| < TWO_TO_THE_64 && Noted(written, len, chunkSize)
      modifies db, journal
      ensures Valid() && db.objects == old(db.objects)
      ensures db.entries == PutIndexed(old(db.entries), key, |written|, EntryOf(len, chunkSize, clock))
      ensures journal.log == old(journal.log) + RegisterChunks(key, len, chunkSize, |written|, clock)
    {
      for j := 0 to |written|
        invariant Valid() && db.objects == old(db.objects)
        invariant db.entries == PutIndexed(old(db.entries), key, j, EntryOf(len, chunkSize, clock))
        invariant journal.log == old(journal.log) + RegisterChunks(key, len, chunkSize, j, clock)
      {
        var (idx, size) := written[j];
        var entry := ChunkMeta(Truncate32(size), clock(j), Complete);
        NotedEntry(key, written, len, chunkSize, j, clock);
        Associative(old(journal.log), RegisterChunks(key, len, chunkSize, j, clock), [PutEntry(ChunkId(key, j), entry)]);
        db.PutChunk(ChunkId(key, idx), entry);
      }
    }

    /** Registers the chunks of a successful upload, and last the object. */
    method RegisterUpload(key: string, written: seq<(u64, nat)>, record: ObjectMeta, clock: Clock, ghost len: nat)
      requires Valid() && |written| < TWO_TO_THE_64 && Noted(written, len, chunkSize)
      modifies db, journal
      ensures Valid()
      ensures db.objects == old(db.objects)[key := record]
      ensures db.entries == PutIndexed(old(db.entries), key, |written|, EntryOf(len, chunkSize, clock))
      ensures journal.log == old(journal.log)
                             + (RegisterChunks(key, len, chunkSize, |written|, clock) + [PutObject(key, record)])
    {
      RegisterWritten(key, written, clock, len);
      Associative(old(journal.log), RegisterChunks(key, len, chunkSize, |written|, clock), [PutObject(key, record)]);
      db.PutObject(key, record);
    }

    /** After a failed stream: the chunk files of this upload, the one being written included, are removed. */
    method RemoveWritten(key: string, current: nat, disk: Disk)
      requires Valid() && current < TWO_TO_THE_64
      modifies storage, journal
      ensures Valid()
      ensures storage.files == WithoutFiles(old(storage.files), key, current + 1, disk)
      ensures journal.log == old(journal.log) + DeleteFiles(key, current + 1, disk)
    {
      WithoutFilesStep(storage.files, key, 0, disk);
      for idx := 0 to current + 1
        invariant Valid()
        invariant storage.files == WithoutFiles(old(storage.files), key, idx, disk)
        invariant journal.log == old(journal.log) + DeleteFiles(key, idx, disk)
      {
        Associative(old(journal.log), DeleteFiles(key, idx, disk), DeleteChunkFile(ChunkId(key, idx), disk));
        WithoutFilesStep(old(storage.files), key, idx + 1, disk);
        var _ := storage.DeleteChunk(ChunkId(key, idx), disk);
      }
    }

    /** The first half of a PUT: the old cache goes, the new chunk files come. */
    method ReceiveUpload(key: string, pieces: Stream, closedAt: Option<nat>, disk: Disk, ghost p: Put)
      returns (ok: bool, current: nat, written: seq<(u64, nat)>)
      requires Valid() && p.key == key && p.ingested == Ingest(key, [], pieces, closedAt, chunkSize, disk)
      modifies db, storage, journal
      ensures Valid()
      ensures ok == p.ingested.ok
      ensures (ok ==> |written| == p.ingested.written && Noted(written, |p.ingested.accepted|, chunkSize))
      ensures (!ok ==> current == p.ingested.written)
      ensures var dropped := Replay(old(Now()), DropLog(old(Now()), key, chunkSize, disk));
              Now() == dropped.(files := PutIndexed(dropped.files, key, p.ingested.written,
                                                    BlockOf(p.ingested.accepted, chunkSize)))
      ensures journal.log
              == old(journal.log) + DropLog(old(Now()), key, chunkSize, disk)
                 + WriteChunks(key, p.ingested.accepted, chunkSize, p.ingested.written)
    {
      DropCacheForObject(key, disk);
      ok, current, written := SplitStream(key, pieces, closedAt, disk);
    }

    /** The second half of a PUT: registration after a successful upload, or removal of what was written. */
    method ConcludeUpload(key: string, ok: bool, current: nat, written: seq<(u64, nat)>, uploaded: Option<string>,
                          declared: u64, contentType: Option<string>, disk: Disk, clock: Clock, ghost p: Put)
      returns (etag: Option<string>)
      requires Valid() && p.key == key && p.declared == declared && p.contentType == contentType
      requires p.ingested.written < TWO_TO_THE_64 && ok == p.ingested.ok
      requires uploaded == if p.upload.Accepted? then Some(p.upload.stored.etag.GetOr("")) else None
      requires ok ==> |written| == p.ingested.written && Noted(written, |p.ingested.accepted|, chunkSize)
      requires !ok ==> current == p.ingested.written
      modifies db, storage, journal
      ensures Valid()
      ensures Now() == Finished(old(Now()), p, chunkSize, disk, clock)
      ensures journal.log == old(journal.log) + FinishPut(key, chunkSize, p.ingested, declared, contentType, p.upload, disk, clock)
      ensures etag == if p.Succeeds() then uploaded else None
    {
      etag := uploaded;
      if ok {
        if etag.Some? {
          RegisterUpload(key, written, ObjectMeta(declared, contentType, etag, clock(|written|)), clock,
                         |p.ingested.accepted|);
        }
      } else {
        RemoveWritten(key, current, disk);
        etag := None;
      }
    }

    /**
     * PUT: drops the old cache, splits the stream onto disk and into the upload, then registers the chunks and the
     * object, or cleans up.
     */
    method WriteAndCacheObject(key: string, pieces: Stream, closedAt: Option<nat>, declared: u64,
                               contentType: Option<string>, upload: Upload, disk: Disk, clock: Clock)
      returns (etag: Option<string>)
      requires Valid()
      modifies db, storage, proxy, journal
      ensures Valid()
      ensures var p := Put(key, Ingest(key, [], pieces, closedAt, chunkSize, disk), declared, contentType, upload);
              && Now() == Replay(old(Now()), p.Log(old(Now()), chunkSize, disk, clock))
              && journal.log == old(journal.log) + p.Log(old(Now()), chunkSize, disk, clock)
              && etag == if p.Succeeds() then Some(upload.stored.etag.GetOr("")) else None
    {
      ghost var p := Put(key, Ingest(key, [], pieces, closedAt, chunkSize, disk), declared, contentType, upload);
      PutInSteps(Now(), p, chunkSize, disk, clock);
      PutJournal(journal.log, Now(), p, chunkSize, disk, clock);
      var ok, current, written := ReceiveUpload(key, pieces, closedAt, disk, p);
      var uploaded := proxy.PutObjectStream(key, upload);
      etag := ConcludeUpload(key, ok, current, written, uploaded, declared, contentType, disk, clock, p);
    }

    /**
     * Fetches [startByte, endByte) from upstream, refuses another length, and caches it as chunk `idx`: file first,
     * then entry.
     */
    method DownloadAndCacheChunk(key: string, idx: u64, startByte: u64, endByte: u64, disk: Disk, now: int)
      returns (ok: bool)
      requires Valid() && startByte < endByte
      modifies db, storage, journal
      ensures Valid()
      ensures ok <==> DownloadFits(old(Now()), key, startByte, endByte) && ChunkId(key, idx) !in disk.unwritable
      ensures Now() == Replay(old(Now()), DownloadLog(old(Now()), ok, key, idx, startByte, endByte, now))
      ensures journal.log == old(journal.log) + DownloadLog(old(Now()), ok, key, idx, startByte, endByte, now)
    {
      var id := ChunkId(key, idx);
      var chunkSize := endByte - startByte;
      ghost var s, before := Now(), journal.log;
      var body := proxy.GetObjectRange(key, startByte, endByte - 1);
      if body.Broken? || |body.bytes| != chunkSize {
        return false;
      }
      var written, _ := storage.WriteChunk(id, body.bytes, disk, 0);
      if !written {
        return false;
      }
      var entry := ChunkMeta(Truncate32(chunkSize), now, Complete);
      db.PutChunk(id, entry);
      ReplayTwo(s, SetFile(id, body.bytes), PutEntry(id, entry));
      Associative(before, [SetFile(id, body.bytes)], [PutEntry(id, entry)]);
      ok := true;
    }
  }
}

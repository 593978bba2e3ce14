/**
 * The proxy's durable state as a value, and every coordinator operation as the log of atomic writes it performs:
 * one database transaction, one file rename or unlink, or one commit at the upstream store. A prefix of a log is
 * what a process crash leaves behind; the whole log is what the operation does.
 */
module CacheModel {
  import opened Basics
  import opened ChunkKey
  import opened Blocks

  type u32 = n: int | 0 <= n < 0x1_0000_0000

  datatype ObjectMeta = ObjectMeta(contentLength: u64, contentType: Option<string>, etag: Option<string>,
                                   lastModified: int)

  datatype ChunkStatus = Complete | Downloading

  datatype ChunkMeta = ChunkMeta(size: u32, lastAccessedAt: int, status: ChunkStatus)

  /** An object of the upstream store, with the headers HEAD reports. */
  datatype Object = Object(content: Body, contentType: Option<string>, etag: Option<string>, lastModified: int)
  {
    function Meta(): ObjectMeta {
      ObjectMeta(|content|, contentType, etag, lastModified)
    }
  }

  datatype State = State(
    upstream: map<string, Object>,
    objects: map<string, ObjectMeta>,
    entries: map<ChunkId, ChunkMeta>,
    files: map<ChunkId, seq<byte>>)

  // --- atomic writes ---

  datatype Write =
    | SetFile(id: ChunkId, data: seq<byte>)
    | DeleteFile(id: ChunkId)
    | PutEntry(id: ChunkId, meta: ChunkMeta)
    | DeleteEntry(id: ChunkId)
    | PutObject(key: string, record: ObjectMeta)
    | DeleteObject(key: string)
    | Commit(key: string, stored: Object)
    | Remove(key: string)
  {
    /** The object the write is about. */
    function Subject(): string {
      match this
      case SetFile(id, _) => id.key
      case DeleteFile(id) => id.key
      case PutEntry(id, _) => id.key
      case DeleteEntry(id) => id.key
      case PutObject(key, _) => key
      case DeleteObject(key) => key
      case Commit(key, _) => key
      case Remove(key) => key
    }
  }

  type Log = seq<Write>

  function Apply(s: State, w: Write): State {
    match w
    case SetFile(id, data) => s.(files := s.files[id := data])
    case DeleteFile(id) => s.(files := s.files - {id})
    case PutEntry(id, meta) => s.(entries := s.entries[id := meta])
    case DeleteEntry(id) => s.(entries := s.entries - {id})
    case PutObject(key, record) => s.(objects := s.objects[key := record])
    case DeleteObject(key) => s.(objects := s.objects - {key})
    case Commit(key, stored) => s.(upstream := s.upstream[key := stored])
    case Remove(key) => s.(upstream := s.upstream - {key})
  }

  function Replay(s: State, log: Log): State {
    if log == [] then s else Apply(Replay(s, log[..|log| - 1]), log[|log| - 1])
  }

  lemma ReplayOne(s: State, log: Log, w: Write)
    ensures Replay(s, log + [w]) == Apply(Replay(s, log), w)
  {
    assert (log + [w])[..|log|] == log;
  }

  lemma {:induction false} ReplayConcat(s: State, a: Log, b: Log)
    ensures Replay(s, a + b) == Replay(Replay(s, a), b)
  {
    if b == [] {
      assert a + b == a;
    } else {
      var b' := b[..|b| - 1];
      ReplayConcat(s, a, b');
      assert a + b == (a + b') + [b[|b| - 1]];
      ReplayOne(s, a + b', b[|b| - 1]);
    }
  }

  // --- the disk and the clock, as inputs ---

  /** Files the disk refuses to unlink, and chunks it refuses to write, during one operation. */
  datatype Disk = Disk(undeletable: set<ChunkId>, unwritable: set<ChunkId>)

  /** The clock reading taken for the n-th chunk of an operation. */
  type Clock = nat -> int

  // --- drop_cache_for_object ---

  function DeleteChunkFile(id: ChunkId, disk: Disk): Log {
    if id in disk.undeletable then [] else [DeleteFile(id)]
  }

  function DropChunks(key: string, n: nat, disk: Disk): Log
    requires n <= TWO_TO_THE_64
  {
    if n == 0 then []
    else
      var id := ChunkId(key, n - 1);
      DropChunks(key, n - 1, disk) + DeleteChunkFile(id, disk) + [DeleteEntry(id)]
  }

  function DropLog(s: State, key: string, cs: nat, disk: Disk): Log
    requires cs > 0
  {
    (if key in s.objects then DropChunks(key, NumChunks(s.objects[key].contentLength, cs), disk) else [])
    + [DeleteObject(key)]
  }

  // --- get_object_metadata ---

  /** The local record names another version than the one upstream reports. */
  predicate Outdated(local: ObjectMeta, upstream: ObjectMeta) {
    local.etag != upstream.etag || local.contentLength != upstream.contentLength
  }

  function RefreshLog(s: State, key: string, cs: nat, disk: Disk): Log
    requires cs > 0 && key in s.upstream
  {
    var meta := s.upstream[key].Meta();
    (if key in s.objects && Outdated(s.objects[key], meta) then DropLog(s, key, cs, disk) else [])
    + [PutObject(key, meta)]
  }

  // --- read_range ---

  /** One item of a byte stream. */
  datatype Piece = Data(bytes: seq<byte>) | Broken

  predicate IsHit(s: State, id: ChunkId) {
    id in s.entries && s.entries[id].status.Complete?
  }

  /** Seek, then read exactly `len` bytes; a missing or short file is an error. */
  function ReadFile(files: map<ChunkId, seq<byte>>, id: ChunkId, offset: nat, len: nat): Piece {
    if id !in files then Broken
    else if len == 0 then Data([])
    else if offset + len <= |files[id]| then Data(files[id][offset..offset + len])
    else Broken
  }

  /** A ranged GET at the upstream store, last byte inclusive. */
  function UpstreamRange(upstream: map<string, Object>, key: string, first: nat, last: nat): Piece {
    if key !in upstream || first >= |upstream[key].content| || last < first then Broken
    else Data(upstream[key].content[first..Min(last + 1, |upstream[key].content|)])
  }

  /** The stream item of chunk `idx`: from disk on a hit, straight from upstream otherwise. */
  function ReadChunk(s: State, key: string, cs: nat, size: nat, start: nat, end: nat, idx: u64): Piece
    requires cs > 0 && start < end <= size
    requires Quotient(start, cs) <= idx <= Quotient(end - 1, cs)
  {
    WindowInsideBlock(size, cs, start, end, idx);
    var lo, hi := ReadStart(cs, start, idx), ReadEnd(size, cs, end, idx);
    var id := ChunkId(key, idx);
    if IsHit(s, id) then ReadFile(s.files, id, lo - idx * cs, hi - lo)
    else UpstreamRange(s.upstream, key, lo, hi - 1)
  }

  function TouchEntry(s: State, id: ChunkId, clock: Clock): Log {
    if IsHit(s, id) then [PutEntry(id, s.entries[id].(lastAccessedAt := clock(id.idx)))] else []
  }

  /** LRU touches of the chunks in [begin, limit). */
  function TouchLog(s: State, key: string, begin: nat, limit: nat, clock: Clock): Log
    requires begin <= limit <= TWO_TO_THE_64
    decreases limit
  {
    if begin == limit then [] else TouchLog(s, key, begin, limit - 1, clock) + TouchEntry(s, ChunkId(key, limit - 1), clock)
  }

  /** Stream items of the chunks in [begin, limit). */
  function ReadChunks(s: State, key: string, cs: nat, size: nat, start: nat, end: nat, begin: nat, limit: nat): seq<Piece>
    requires cs > 0 && start < end <= size < TWO_TO_THE_64
    requires Quotient(start, cs) <= begin <= limit <= Quotient(end - 1, cs) + 1
    decreases limit
  {
    if begin == limit then []
    else
      WindowInsideBlock(size, cs, start, end, limit - 1);
      ReadChunks(s, key, cs, size, start, end, begin, limit - 1) + [ReadChunk(s, key, cs, size, start, end, limit - 1)]
  }

  /** After the metadata refresh: which chunks a read of [start, end) visits. */
  function ReadFrom(size: u64, cs: nat, start: nat, end: nat): nat
    requires cs > 0
  {
    if start >= Min(end, size) then 0 else Quotient(start, cs)
  }

  function ReadTo(size: u64, cs: nat, start: nat, end: nat): (n: nat)
    requires cs > 0
    ensures ReadFrom(size, cs, start, end) <= n <= TWO_TO_THE_64
  {
    var end := Min(end, size);
    if start >= end then 0
    else
      DivBounds(end - 1, cs);
      DivBounds(start, cs);
      DivUnique(end - 1, cs, Quotient(start, cs));
      Quotient(end - 1, cs) + 1
  }

  /** The stream `read_range` returns, given the refreshed state. */
  function ReadPieces(s: State, key: string, cs: nat, size: u64, start: nat, end: nat): seq<Piece>
    requires cs > 0
  {
    var stop := Min(end, size);
    if start >= stop then [Data([])]
    else
      ReadChunks(s, key, cs, size, start, stop, ReadFrom(size, cs, start, end), ReadTo(size, cs, start, end))
  }

  /** Everything `read_range` writes: the metadata refresh and the LRU touches. */
  function ReadLog(s: State, key: string, cs: nat, start: nat, end: nat, disk: Disk, clock: Clock): Log
    requires cs > 0 && key in s.upstream
  {
    var refresh := RefreshLog(s, key, cs, disk);
    var size := |s.upstream[key].content|;
    refresh + TouchLog(Replay(s, refresh), key, ReadFrom(size, cs, start, end), ReadTo(size, cs, start, end), clock)
  }

  // --- copy_cache_object ---

  /** Copying a file is not atomic: the destination is truncated first, which empties a file copied onto itself. */
  function CopyFile(files: map<ChunkId, seq<byte>>, source: ChunkId, target: ChunkId): Log {
    if source !in files then []
    else if source == target then [SetFile(target, [])]
    else [SetFile(target, []), SetFile(target, files[source])]
  }

  function CopyChunk(s: State, src: string, dest: string, idx: u64): Log {
    var source, target := ChunkId(src, idx), ChunkId(dest, idx);
    if IsHit(s, source) then CopyFile(s.files, source, target) + [PutEntry(target, s.entries[source])] else []
  }

  function CopyChunks(s: State, src: string, dest: string, n: nat): Log
    requires n <= TWO_TO_THE_64
  {
    if n == 0 then [] else CopyChunks(s, src, dest, n - 1) + CopyChunk(s, src, dest, n - 1)
  }

  function CopyLog(s: State, src: string, dest: string, cs: nat): Log
    requires cs > 0
  {
    if src in s.objects then
      [PutObject(dest, s.objects[src])]
      + CopyChunks(s, src, dest, NumChunks(s.objects[src].contentLength, cs))
    else []
  }

  // --- write_and_cache_object ---

  /** What the upload task ends with; a failed upload may still have stored something. */
  datatype Upload = Accepted(stored: Object) | Rejected(effect: Option<Object>)
  {
    function Effect(): Option<Object> {
      match this
      case Accepted(stored) => Some(stored)
      case Rejected(effect) => effect
    }
  }

  /** All data bytes of a stream, up to its first error. */
  function Contents(pieces: seq<Piece>): seq<byte> {
    if pieces == [] || pieces[0].Broken? then [] else pieces[0].bytes + Contents(pieces[1..])
  }

  /** A byte stream whose data is countable in 64 bits. */
  type Stream = pieces: seq<Piece> | |Contents(pieces)| < 0x1_0000_0000_0000_0000

  predicate Unbroken(pieces: seq<Piece>) {
    forall p :: p in pieces ==> p.Data?
  }

  /** How far the streaming splitter got: bytes accepted, chunk files written, and whether it reached the end. */
  datatype Ingested = Ingested(accepted: seq<byte>, written: nat, ok: bool)

  /** First chunk index in [begin, limit) the disk refuses, or `limit`. */
  function FirstUnwritable(key: string, begin: nat, limit: nat, disk: Disk): (j: nat)
    requires begin <= limit <= TWO_TO_THE_64
    ensures begin <= j <= limit
    ensures j < limit ==> ChunkId(key, j) in disk.unwritable
    decreases limit - begin
  {
    if begin == limit || ChunkId(key, begin) in disk.unwritable then begin
    else FirstUnwritable(key, begin + 1, limit, disk)
  }

  function AfterOne(closedAt: Option<nat>): Option<nat> {
    if closedAt.Some? && closedAt.value > 0 then Some(closedAt.value - 1) else closedAt
  }

  /**
   * The splitter: append a piece, write out every full chunk, and flush the partial one at the end. `closedAt`
   * is the number of pieces the upload channel takes before its receiver goes away, if it does.
   */
  function Ingest(key: string, accepted: seq<byte>, pieces: seq<Piece>, closedAt: Option<nat>, cs: nat, disk: Disk)
    : (r: Ingested)
    requires cs > 0
    requires |accepted| + |Contents(pieces)| < TWO_TO_THE_64
    ensures |r.accepted| < TWO_TO_THE_64 && r.written <= |r.accepted|
    decreases |pieces|
  {
    var full := Quotient(|accepted|, cs);
    DivBounds(|accepted|, cs);
    if pieces == [] then
      if |accepted| == full * cs then
        IndexInRange(|accepted|, cs, full);
        Ingested(accepted, full, true)
      else if ChunkId(key, full) in disk.unwritable then Ingested(accepted, full, false)
      else
        IndexInRange(|accepted|, cs, full);
        IndexInRange(|accepted|, cs, full + 1);
        StartMonotone(|accepted|, cs, full);
        Ingested(accepted, full + 1, true)
    else if pieces[0].Broken? || closedAt == Some(0) then Ingested(accepted, full, false)
    else
      var more := accepted + pieces[0].bytes;
      var full' := Quotient(|more|, cs);
      DivBounds(|more|, cs);
      DivUnique(|more|, cs, full);
      var reached := FirstUnwritable(key, full, full', disk);
      if reached < full' then
        DivUnique(|more|, cs, reached);
        Ingested(more, reached, false)
      else
        Ingest(key, more, pieces[1..], AfterOne(closedAt), cs, disk)
  }

  function WriteChunks(key: string, content: seq<byte>, cs: nat, n: nat): Log
    requires n <= TWO_TO_THE_64
  {
    if n == 0 then [] else WriteChunks(key, content, cs, n - 1) + [SetFile(ChunkId(key, n - 1), Block(content, cs, n - 1))]
  }

  /** `size as u32`. */
  function Truncate32(n: nat): u32 {
    n % TWO_TO_THE_32
  }

  function RegisterChunks(key: string, len: nat, cs: nat, n: nat, clock: Clock): Log
    requires n <= TWO_TO_THE_64
  {
    if n == 0 then []
    else
      RegisterChunks(key, len, cs, n - 1, clock)
      + [PutEntry(ChunkId(key, n - 1), ChunkMeta(Truncate32(BlockLen(len, cs, n - 1)), clock(n - 1), Complete))]
  }

  function DeleteFiles(key: string, n: nat, disk: Disk): Log
    requires n <= TWO_TO_THE_64
  {
    if n == 0 then [] else DeleteFiles(key, n - 1, disk) + DeleteChunkFile(ChunkId(key, n - 1), disk)
  }

  function CommitLog(key: string, effect: Option<Object>): Log {
    match effect
    case None => []
    case Some(stored) => [Commit(key, stored)]
  }

  /** The record a successful PUT leaves: a missing ETag header is stored as the empty string. */
  function PutRecord(declared: u64, contentType: Option<string>, stored: Object, now: int): ObjectMeta {
    ObjectMeta(declared, contentType, Some(stored.etag.GetOr("")), now)
  }

  function PutLog(s: State, key: string, cs: nat, ingested: Ingested, declared: u64, contentType: Option<string>,
                  upload: Upload, disk: Disk, clock: Clock): Log
    requires cs > 0 && ingested.written < TWO_TO_THE_64
  {
    DropLog(s, key, cs, disk)
    + WriteChunks(key, ingested.accepted, cs, ingested.written)
    + CommitLog(key, upload.Effect())
    + FinishPut(key, cs, ingested, declared, contentType, upload, disk, clock)
  }

  /** After the stream ended: registration, nothing (the upload failed), or removal of the files just written. */
  function FinishPut(key: string, cs: nat, ingested: Ingested, declared: u64, contentType: Option<string>,
                     upload: Upload, disk: Disk, clock: Clock): Log
    requires cs > 0 && ingested.written < TWO_TO_THE_64
  {
    if !ingested.ok then DeleteFiles(key, ingested.written + 1, disk)
    else if upload.Rejected? then []
    else
      RegisterChunks(key, |ingested.accepted|, cs, ingested.written, clock)
      + [PutObject(key, PutRecord(declared, contentType, upload.stored, clock(ingested.written)))]
  }

  // --- eviction, as seen by the store ---

  function EvictLog(victims: seq<ChunkId>, disk: Disk): Log {
    if victims == [] then []
    else
      var id := victims[|victims| - 1];
      EvictLog(victims[..|victims| - 1], disk) + DeleteChunkFile(id, disk) + [DeleteEntry(id)]
  }
}

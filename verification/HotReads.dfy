/**
 * What the cache is for: after a PUT, a GET is served from disk. The record a PUT leaves agrees with what upstream
 * then reports, so the next HEAD keeps every chunk, and a read takes each byte from a chunk file.
 */
module HotReads {
  import opened Basics
  import opened ChunkKey
  import opened Blocks
  import opened CacheModel
  import opened Coherence
  import opened Operations
  import opened Reading
  import opened ByteRange
  import opened PutOperation
  import opened Copying
  import opened Runs
  import opened Refinement
  import opened Replies
  import Splitter

  // --- the record ---

  /** The record of a successful PUT, field by field. A missing ETag header is recorded as the empty string. */
  lemma PutRecordFields(names: Naming, cs: nat, s: State, p: Put, disk: Disk, clock: Clock)
    requires cs > 0 && CrashSafe(names, cs, s) && Honest(names, cs, p) && p.Succeeds()
    ensures var t := Replay(s, p.Log(s, cs, disk, clock));
            && p.key in t.objects && p.key in t.upstream && t.upstream[p.key] == p.upload.stored
            && t.objects[p.key].contentLength == |p.upload.stored.content|
            && t.objects[p.key].contentType == p.contentType
            && t.objects[p.key].etag == (if p.upload.stored.etag.None? then Some("") else p.upload.stored.etag)
            && t.objects[p.key].lastModified == clock(p.ingested.written)
  {
    PutOutcome(names, cs, s, p, disk, clock);
  }

  /** The state after a PUT and the next HEAD. */
  function AfterHead(s: State, cs: nat, p: Put, disk: Disk, clock: Clock, disk': Disk): State
    requires cs > 0 && p.ingested.written < TWO_TO_THE_64
    requires p.key in Replay(s, p.Log(s, cs, disk, clock)).upstream
  {
    var t := Replay(s, p.Log(s, cs, disk, clock));
    Replay(t, RefreshLog(t, p.key, cs, disk'))
  }

  /** Every chunk of the body is registered and complete, with the chunk's bytes on disk. */
  ghost predicate AllOnDisk(cs: nat, t: State, key: string, content: seq<byte>)
    requires cs > 0
  {
    forall id: ChunkId :: id.key == key && id.idx < NumChunks(|content|, cs) ==>
      IsHit(t, id) && id in t.files && t.files[id] == Block(content, cs, id.idx)
  }

  /**
   * The next HEAD keeps what a PUT has cached if and only if upstream has given the object an ETag. Then nothing is
   * dropped and every chunk of the body is on disk; otherwise no chunk of the object stays registered.
   */
  lemma KeptExactly(names: Naming, cs: nat, s: State, p: Put, disk: Disk, clock: Clock, disk': Disk)
    requires cs > 0 && CrashSafe(names, cs, s) && Honest(names, cs, p) && p.Succeeds() && PutSafeAtEnd(cs, s, p, disk)
    ensures var t := Replay(s, p.Log(s, cs, disk, clock));
            && p.key in t.upstream
            && var r := AfterHead(s, cs, p, disk, clock, disk');
               if p.upload.stored.etag.Some? then
                 r.entries == t.entries && r.files == t.files && AllOnDisk(cs, r, p.key, p.ingested.accepted)
               else NoEntries(r, p.key)
  {
    var t := Replay(s, p.Log(s, cs, disk, clock));
    PutRecordFields(names, cs, s, p, disk, clock);
    PutOutcome(names, cs, s, p, disk, clock);
    RefreshEffect(t, p.key, cs, disk');
    if p.upload.stored.etag.None? {
      PutEndsExactly(names, cs, s, p, disk, clock);
      DropComplete(names, cs, t, p.key, disk');
    } else {
      assert NamedBy(names, p.upload.stored);
    }
  }

  // --- reading from disk ---

  /** The chunks of [start, end) are registered. */
  ghost predicate AllHits(s: State, key: string, begin: nat, limit: nat) {
    forall id: ChunkId :: id.key == key && begin <= id.idx < limit ==> IsHit(s, id)
  }

  /** A stream over registered chunks takes nothing from upstream: it is the same whatever upstream holds. */
  lemma {:induction false} ChunksFromDisk(s: State, key: string, cs: nat, size: nat, start: nat, end: nat, begin: nat,
                                          limit: nat, upstream: map<string, Object>)
    requires cs > 0 && start < end <= size < TWO_TO_THE_64
    requires Quotient(start, cs) <= begin <= limit <= Quotient(end - 1, cs) + 1
    requires AllHits(s, key, begin, limit)
    ensures ReadChunks(s.(upstream := upstream), key, cs, size, start, end, begin, limit)
            == ReadChunks(s, key, cs, size, start, end, begin, limit)
    decreases limit
  {
    if begin < limit {
      WindowInsideBlock(size, cs, start, end, limit - 1);
      ChunksFromDisk(s, key, cs, size, start, end, begin, limit - 1, upstream);
      assert IsHit(s, ChunkId(key, limit - 1));
    }
  }

  lemma FromDisk(s: State, key: string, cs: nat, size: u64, start: nat, end: nat, upstream: map<string, Object>)
    requires cs > 0 && forall id: ChunkId :: id.key == key && id.idx < NumChunks(size, cs) ==> IsHit(s, id)
    ensures ReadPieces(s.(upstream := upstream), key, cs, size, start, end) == ReadPieces(s, key, cs, size, start, end)
  {
    var stop := Min(end, size);
    if start < stop {
      DivBounds(start, cs);
      DivBounds(stop - 1, cs);
      DivUnique(stop - 1, cs, Quotient(start, cs));
      InsideObject(size, cs, stop);
      ChunksFromDisk(s, key, cs, size, start, stop, Quotient(start, cs), Quotient(stop - 1, cs) + 1, upstream);
    }
  }

  lemma InsideObject(size: nat, cs: nat, stop: nat)
    requires cs > 0 && 0 < stop <= size
    ensures Quotient(stop - 1, cs) < NumChunks(size, cs)
  {
    DivBounds(stop - 1, cs);
    IndexInRange(size, cs, Quotient(stop - 1, cs));
  }

  /** A registered chunk is read from its file, at its offset; nothing else is. */
  lemma HitReadsFile(s: State, key: string, cs: nat, size: nat, start: nat, end: nat, idx: u64)
    requires cs > 0 && start < end <= size && Quotient(start, cs) <= idx <= Quotient(end - 1, cs)
    ensures var id := ChunkId(key, idx);
            var lo, hi := ReadStart(cs, start, idx), ReadEnd(size, cs, end, idx);
            && idx * cs <= lo < hi
            && ReadChunk(s, key, cs, size, start, end, idx)
               == if id in s.entries && s.entries[id].status == Complete then ReadFile(s.files, id, lo - idx * cs, hi - lo)
                  else UpstreamRange(s.upstream, key, lo, hi - 1)
  {
    WindowInsideBlock(size, cs, start, end, idx);
  }

  // --- PUT, then GET ---

  /** What an uninterrupted, legal and successful PUT request amounts to. */
  lemma PutPerformed(names: Naming, cs: nat, s: State, put: Event)
    requires cs > 0 && Steady(names, cs, s) && put.op.PutReq? && put.crashedAfter.None?
    requires Legal(names, cs, s, put) && AsPut(put.op, cs, put.disk).Succeeds()
    ensures var p := AsPut(put.op, cs, put.disk);
            && Honest(names, cs, p) && PutSafeAtEnd(cs, s, p, put.disk)
            && p.ingested.accepted == Contents(put.op.pieces) && p.upload.stored.content == p.ingested.accepted
            && Step(s, cs, put) == Replay(s, p.Log(s, cs, put.disk, put.clock))
  {
    var p := AsPut(put.op, cs, put.disk);
    AsPutHonest(names, cs, s, put.op, put.disk);
    RecordedHasNoLeftover(s, p.key);
    Splitter.IngestOutcome(put.op.key, [], put.op.pieces, put.op.closedAt, cs, put.disk);
  }

  /** The state in which a GET after a PUT reads: after its HEAD. */
  function ReadState(t: State, cs: nat, get: Event): State
    requires cs > 0 && get.op.GetReq? && get.op.key in t.upstream
  {
    Replay(t, RefreshLog(t, get.op.key, cs, get.disk))
  }

  /**
   * After a successful PUT of an object that upstream has given an ETag, a GET of any range takes every byte from the
   * chunk files: its stream is the same whatever upstream holds when the stream is read. Its answer is marked hot.
   */
  lemma PutThenHotGet(names: Naming, cs: nat, s: State, put: Event, get: Event, range: Option<string>,
                      upstream: map<string, Object>)
    requires cs > 0 && Steady(names, cs, s) && put.op.PutReq? && put.crashedAfter.None?
    requires Legal(names, cs, s, put) && AsPut(put.op, cs, put.disk).Succeeds() && put.op.upload.stored.etag.Some?
    requires IsGet(get, put.op.key, range)
    ensures var t, content := Step(s, cs, put), Contents(put.op.pieces);
            && put.op.key in t.upstream && t.upstream[put.op.key].content == content
            && AllOnDisk(cs, ReadState(t, cs, get), put.op.key, content)
            && HeadersOf(t, cs, get).Some? && HeadersOf(t, cs, get).value.hot
            && var w := Window(range, |content|);
               && ReplyOf(t, cs, get).Found?
               && ReplyOf(t, cs, get).pieces
                  == ReadPieces(ReadState(t, cs, get).(upstream := upstream), put.op.key, cs, |content|, w.0, w.1)
  {
    PutPerformed(names, cs, s, put);
    var p := AsPut(put.op, cs, put.disk);
    KeptExactly(names, cs, s, p, put.disk, put.clock, get.disk);
    PutRecordFields(names, cs, s, p, put.disk, put.clock);
    CalmEvent(names, cs, s, put);
    var t, content := Step(s, cs, put), Contents(put.op.pieces);
    var w := Window(range, |content|);
    AllHit(cs, ReadState(t, cs, get), put.op.key, content);
    FromDisk(ReadState(t, cs, get), put.op.key, cs, |content|, w.0, w.1, upstream);
    StaysHot(names, cs, t, get, put.op.key, range);
  }

  lemma AllHit(cs: nat, t: State, key: string, content: seq<byte>)
    requires cs > 0 && AllOnDisk(cs, t, key, content)
    ensures forall id: ChunkId :: id.key == key && id.idx < NumChunks(|content|, cs) ==> IsHit(t, id)
  {
  }

  /** Touches do not cool an object down. */
  lemma StaysHot(names: Naming, cs: nat, t: State, get: Event, key: string, range: Option<string>)
    requires cs > 0 && CrashSafe(names, cs, t) && key in t.upstream && IsGet(get, key, range)
    requires AllOnDisk(cs, ReadState(t, cs, get), key, t.upstream[key].content)
    ensures HeadersOf(t, cs, get).Some? && HeadersOf(t, cs, get).value.hot
  {
    HotExactly(names, cs, t, get, key);
    GetDisciplined(names, cs, t, key, range, get.disk, get.clock);
    StatusIs(t, cs, get, key);
    var size := |t.upstream[key].content|;
    if size > 0 {
      IndexInRange(size, cs, 0);
      assert IsHit(ReadState(t, cs, get), ChunkId(key, 0));
    }
  }

  // --- COPY, then GET ---

  /** What a copy to another key carries over, chunk by chunk, and what it leaves alone. */
  lemma CopyCarriesOver(s: State, src: string, dest: string, cs: nat, id: ChunkId)
    requires cs > 0 && src != dest && src in s.objects
    ensures var t, from := Replay(s, CopyLog(s, src, dest, cs)), ChunkId(src, id.idx);
            var copied := id.key == dest && id.idx < NumChunks(s.objects[src].contentLength, cs)
                          && from in s.entries && s.entries[from].status == Complete;
            && t.upstream == s.upstream && t.objects == s.objects[dest := s.objects[src]]
            && (if copied then id in t.entries && t.entries[id] == s.entries[from]
                else (id in t.entries <==> id in s.entries) && (id in s.entries ==> t.entries[id] == s.entries[id]))
            && (if copied && from in s.files then id in t.files && t.files[id] == s.files[from]
                else (id in t.files <==> id in s.files) && (id in s.files ==> t.files[id] == s.files[id]))
  {
    var n := NumChunks(s.objects[src].contentLength, cs);
    assert CopyLog(s, src, dest, cs) == CopyPrefix(s, src, dest, n);
    CopyChunksEffect(s, src, dest, n);
    CopyEntriesAt(s, src, dest, n, id);
    CopyFilesAt(s, src, dest, n, id);
  }

  /**
   * After a copy to another key, the next HEAD of the copy keeps the chunks if ETag and length of the source's record
   * are those upstream gives the copy: then a wholly cached source makes a wholly cached copy.
   */
  lemma CopyKept(s: State, src: string, dest: string, cs: nat, disk: Disk)
    requires cs > 0 && src != dest && src in s.objects && dest in s.upstream
    requires s.objects[src].etag == s.upstream[dest].etag
    requires s.objects[src].contentLength == |s.upstream[dest].content|
    requires AllOnDisk(cs, s, src, s.upstream[dest].content)
    ensures var t := Replay(s, CopyLog(s, src, dest, cs));
            && t.upstream == s.upstream
            && AllOnDisk(cs, Replay(t, RefreshLog(t, dest, cs, disk)), dest, s.upstream[dest].content)
  {
    var t := Replay(s, CopyLog(s, src, dest, cs));
    CopyCarriesOver(s, src, dest, cs, ChunkId(dest, 0));
    RefreshEffect(t, dest, cs, disk);
    forall id: ChunkId | id.key == dest && id.idx < NumChunks(|s.upstream[dest].content|, cs)
      ensures IsHit(t, id) && id in t.files && t.files[id] == Block(s.upstream[dest].content, cs, id.idx)
    {
      CopyCarriesOver(s, src, dest, cs, id);
      assert IsHit(s, ChunkId(src, id.idx));
    }
  }
}

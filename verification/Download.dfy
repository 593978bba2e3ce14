/** Filling the cache on demand: what a single-flight download adds is right for the recorded version. */
module Download {
  import opened Basics
  import opened ChunkKey
  import opened Blocks
  import opened CacheModel
  import opened Coherence
  import opened Reading
  import opened Coordinator
  import Operations
  import Refinement

  /** The byte range of a chunk. */
  function ChunkStart(cs: nat, idx: nat): nat {
    idx * cs
  }

  function ChunkStop(len: nat, cs: nat, idx: nat): nat {
    Start(len, cs, idx + 1)
  }

  /** An honest upstream always has the bytes of a chunk the object has. */
  lemma ChunkFetched(s: State, cs: nat, key: string, idx: u64)
    requires cs > 0 && key in s.upstream && idx < NumChunks(|s.upstream[key].content|, cs)
    ensures var content := s.upstream[key].content;
            var a, b := ChunkStart(cs, idx), ChunkStop(|content|, cs, idx);
            && 0 <= a < b <= |content|
            && UpstreamRange(s.upstream, key, a, b - 1) == Data(Block(content, cs, idx))
            && b - a == BlockLen(|content|, cs, idx)
  {
    var content := s.upstream[key].content;
    IndexInRange(|content|, cs, idx);
    StartMonotone(|content|, cs, idx);
    assert Start(|content|, cs, idx) == idx * cs;
    assert Start(|content|, cs, idx + 1) == Min(idx * cs + cs, |content|);
  }

  /** Two writes, each allowed at its turn. */
  lemma TwoWrites(names: Naming, cs: nat, s: State, a: Write, b: Write)
    requires cs > 0 && CrashSafe(names, cs, s) && Allowed(names, cs, s, a) && Allowed(names, cs, Apply(s, a), b)
    ensures Disciplined(names, cs, s, [a, b])
    ensures Replay(s, [a, b]) == Apply(Apply(s, a), b) && CrashSafe(names, cs, Replay(s, [a, b]))
  {
    AllowedKeepsSafe(names, cs, s, a);
    AllowedKeepsSafe(names, cs, Apply(s, a), b);
    ReplayTwo(s, a, b);
    DisciplinedOne(names, cs, s, [], a);
    assert [] + [a] == [a];
    Refinement.OneReplay(s, a);
    DisciplinedOne(names, cs, s, [a], b);
  }

  /** What filling chunk `id` writes. */
  function Fill(cs: nat, o: Object, id: ChunkId, now: int): Log {
    [SetFile(id, Block(o.content, cs, id.idx)),
     PutEntry(id, ChunkMeta(Truncate32(BlockLen(|o.content|, cs, id.idx)), now, Complete))]
  }

  /** Filling a chunk, registered or not, under a current record. */
  lemma FillDisciplined(names: Naming, cs: nat, s: State, id: ChunkId, now: int)
    requires cs > 0 && CrashSafe(names, cs, s) && Current(s, id.key)
    requires id.idx < NumChunks(|s.upstream[id.key].content|, cs)
    ensures var log := Fill(cs, s.upstream[id.key], id, now);
            var t := Replay(s, log);
            && Disciplined(names, cs, s, log) && CrashSafe(names, cs, t)
            && t.upstream == s.upstream && t.objects == s.objects
            && IsHit(t, id) && id in t.files && t.files[id] == Block(s.upstream[id.key].content, cs, id.idx)
  {
    var o := s.upstream[id.key];
    var log := Fill(cs, o, id, now);
    var mid := Apply(s, log[0]);
    FillAllowed(names, cs, s, id);
    Operations.StoredEntryRight(names, cs, o, id, now, mid.files);
    SameVersion(names, cs, o.Meta(), s.objects[id.key], id, log[1].meta, mid.files);
    TwoWrites(names, cs, s, log[0], log[1]);
    assert log == [log[0], log[1]];
  }

  /** If the chunk is registered, its file is replaced by one that is as right. */
  lemma FillAllowed(names: Naming, cs: nat, s: State, id: ChunkId)
    requires cs > 0 && CrashSafe(names, cs, s) && Current(s, id.key)
    ensures Allowed(names, cs, s, SetFile(id, Block(s.upstream[id.key].content, cs, id.idx)))
  {
    BlockSizes(s.upstream[id.key].content, cs, id.idx);
  }

  /** The download writes exactly that. */
  lemma DownloadFills(s: State, cs: nat, key: string, idx: u64, now: int)
    requires cs > 0 && key in s.upstream && idx < NumChunks(|s.upstream[key].content|, cs)
    ensures var a, b := ChunkStart(cs, idx), ChunkStop(|s.upstream[key].content|, cs, idx);
            && 0 <= a < b < TWO_TO_THE_64 && DownloadFits(s, key, a, b)
            && DownloadLog(s, true, key, idx, a, b, now) == Fill(cs, s.upstream[key], ChunkId(key, idx), now)
  {
    ChunkFetched(s, cs, key, idx);
    BlockSizes(s.upstream[key].content, cs, idx);
  }

  /**
   * A download of a chunk of an object whose record is current obeys the write discipline, even if the chunk is
   * registered already: every point of it leaves a crash-safe cache, and at the end the chunk is registered with
   * upstream's bytes.
   */
  lemma DownloadDisciplined(names: Naming, cs: nat, s: State, key: string, idx: u64, now: int)
    requires cs > 0 && CrashSafe(names, cs, s) && Current(s, key)
    requires idx < NumChunks(|s.upstream[key].content|, cs)
    ensures var content, id := s.upstream[key].content, ChunkId(key, idx);
            var a, b := ChunkStart(cs, idx), ChunkStop(|content|, cs, idx);
            && 0 <= a < b < TWO_TO_THE_64 && DownloadFits(s, key, a, b)
            && var log := DownloadLog(s, true, key, idx, a, b, now);
               var t := Replay(s, log);
               && Disciplined(names, cs, s, log) && CrashSafe(names, cs, t)
               && id in t.entries && t.entries[id] == ChunkMeta(Truncate32(b - a), now, Complete)
               && id in t.files && t.files[id] == Block(content, cs, idx)
  {
    DownloadFills(s, cs, key, idx, now);
    FillDisciplined(names, cs, s, ChunkId(key, idx), now);
    ChunkFetched(s, cs, key, idx);
    FillReplayed(s, cs, s.upstream[key], ChunkId(key, idx), now);
  }

  lemma SameVersion(names: Naming, cs: nat, a: ObjectMeta, b: ObjectMeta, id: ChunkId, entry: ChunkMeta,
                    files: map<ChunkId, seq<byte>>)
    requires cs > 0 && a.etag == b.etag && a.contentLength == b.contentLength
    requires EntryRight(names, cs, a, id, entry, files)
    ensures EntryRight(names, cs, b, id, entry, files)
  {
  }

  /**
   * Downloading a chunk twice is downloading it once, but for the access time: the second download may come at any
   * time after the first, since the flight table does not look whether the chunk is registered.
   */
  lemma DownloadTwice(names: Naming, cs: nat, s: State, key: string, idx: u64, now: int, later: int)
    requires cs > 0 && CrashSafe(names, cs, s) && Current(s, key)
    requires idx < NumChunks(|s.upstream[key].content|, cs)
    ensures var id, o := ChunkId(key, idx), s.upstream[key];
            var once := Replay(s, Fill(cs, o, id, now));
            && Current(once, key) && Disciplined(names, cs, once, Fill(cs, o, id, later))
            && Replay(once, Fill(cs, o, id, later)) == Replay(s, Fill(cs, o, id, later))
  {
    var id, o := ChunkId(key, idx), s.upstream[key];
    var once := Replay(s, Fill(cs, o, id, now));
    FillDisciplined(names, cs, s, id, now);
    FillDisciplined(names, cs, once, id, later);
    FillReplayed(s, cs, o, id, now);
    FillReplayed(s, cs, o, id, later);
    FillReplayed(once, cs, o, id, later);
    FilledTwice(s, cs, o, id, now, later);
  }

  /** The state with the chunk in place. */
  function Filled(s: State, cs: nat, o: Object, id: ChunkId, now: int): State {
    s.(files := s.files[id := Block(o.content, cs, id.idx)],
       entries := s.entries[id := ChunkMeta(Truncate32(BlockLen(|o.content|, cs, id.idx)), now, Complete)])
  }

  lemma FillReplayed(s: State, cs: nat, o: Object, id: ChunkId, now: int)
    ensures Replay(s, Fill(cs, o, id, now)) == Filled(s, cs, o, id, now)
  {
    var log := Fill(cs, o, id, now);
    ReplayTwo(s, log[0], log[1]);
  }

  lemma FilledTwice(s: State, cs: nat, o: Object, id: ChunkId, now: int, later: int)
    ensures Filled(Filled(s, cs, o, id, now), cs, o, id, later) == Filled(s, cs, o, id, later)
  {
  }

  /** A download is refused exactly when upstream does not have all of the bytes asked for. */
  lemma FitsExactly(s: State, key: string, startByte: u64, endByte: u64)
    requires startByte < endByte
    ensures DownloadFits(s, key, startByte, endByte) <==> key in s.upstream && endByte <= |s.upstream[key].content|
    ensures DownloadFits(s, key, startByte, endByte) ==>
              UpstreamRange(s.upstream, key, startByte, endByte - 1)
              == Data(s.upstream[key].content[startByte..endByte])
  {
  }

  /** The file comes before the entry: at no point of a download is the chunk registered without its file. */
  lemma FillBacked(s: State, cs: nat, o: Object, id: ChunkId, now: int, k: nat)
    requires Backed(s) && k <= |Fill(cs, o, id, now)|
    ensures Backed(Replay(s, Fill(cs, o, id, now)[..k]))
  {
    var log := Fill(cs, o, id, now);
    if k == 0 {
      assert log[..0] == [];
    } else if k == 1 {
      assert log[..1] == [log[0]];
      Refinement.OneReplay(s, log[0]);
    } else {
      assert log[..2] == log;
      FillReplayed(s, cs, o, id, now);
    }
  }
}

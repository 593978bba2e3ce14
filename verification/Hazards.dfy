/** Concrete runs: guards of a legal run that are not respected, so that a GET answers wrong bytes, and a lost file. */
module Hazards {
  import opened Basics
  import opened ChunkKey
  import opened Blocks
  import opened CacheModel
  import opened Coherence
  import opened Operations
  import opened Reading
  import opened ByteRange
  import opened PutOperation
  import opened Copying
  import opened Runs
  import opened Refinement

  function Calmly(op: Op): Event {
    Event(op, Disk({}, {}), (i: nat) => 0, None)
  }

  function Version(data: byte, etag: string): Object {
    Object([data], None, Some(etag), 0)
  }

  /** Two one-byte versions. */
  function TwoVersions(): Naming {
    (etag: Option<string>, n: nat) => if etag == Some("a") then [1] else [2]
  }

  function A(): Object {
    Version(1, "a")
  }

  function B(): Object {
    Version(2, "b")
  }

  /** A whole-object read of a one-byte object whose chunk is registered. */
  lemma ReadsFile(s: State, cs: nat, key: string)
    requires cs > 0 && IsHit(s, ChunkId(key, 0))
    ensures ReadPieces(s, key, cs, 1, 0, 1) == [ReadFile(s.files, ChunkId(key, 0), 0, 1)]
  {
    assert Quotient(0, cs) == 0;
    WindowInsideBlock(1, cs, 0, 1, 0);
    OneByteLayout(cs);
    assert 0 * cs == 0;
    assert ReadStart(cs, 0, 0) == 0 && ReadEnd(1, cs, 1, 0) == 1;
    var item := ReadFile(s.files, ChunkId(key, 0), 0, 1);
    assert ReadChunk(s, key, cs, 1, 0, 1, 0) == item;
    var none := ReadChunks(s, key, cs, 1, 0, 1, 0, 0);
    assert ReadChunks(s, key, cs, 1, 0, 1, 0, 1) == none + [item];
  }

  /** A GET of a one-byte object whose record is current reads the registered chunk's file, whatever it holds. */
  lemma ServesFromDisk(s: State, cs: nat, key: string)
    requires cs > 0 && Current(s, key) && |s.upstream[key].content| == 1 && IsHit(s, ChunkId(key, 0))
    ensures ReplyOf(s, cs, Calmly(GetReq(key, None))) == Found(false, 1, [ReadFile(s.files, ChunkId(key, 0), 0, 1)])
  {
    RefreshIdempotent(s, key, cs, Calmly(GetReq(key, None)).disk);
    ReadsFile(s, cs, key);
  }

  /** In particular a byte that is not upstream's. */
  lemma ServesFile(s: State, cs: nat, key: string, data: byte)
    requires cs > 0 && Current(s, key) && |s.upstream[key].content| == 1
    requires IsHit(s, ChunkId(key, 0)) && ChunkId(key, 0) in s.files && s.files[ChunkId(key, 0)] == [data]
    ensures ReplyOf(s, cs, Calmly(GetReq(key, None))) == Found(false, 1, [Data([data])])
  {
    ServesFromDisk(s, cs, key);
    assert [data][0..1] == [data];
  }

  function Entry(): ChunkMeta {
    ChunkMeta(1, 0, Complete)
  }

  /** The only chunk of a one-byte object, registered, with its own byte on disk. */
  lemma OneByteEntryRight(names: Naming, cs: nat, o: Object, key: string, files: map<ChunkId, seq<byte>>)
    requires cs > 0 && |o.content| == 1 && NamedBy(names, o)
    requires ChunkId(key, 0) in files && files[ChunkId(key, 0)] == o.content
    ensures EntryRight(names, cs, o.Meta(), ChunkId(key, 0), Entry(), files)
  {
    OneByteLayout(cs);
    OneByteBlock(o.content, cs);
  }

  // --- copying onto a cached destination ---

  /** The destination is cached as version b; the source's only chunk has been evicted. */
  function BeforeCopy(): State {
    State(map["src" := A(), "dest" := B()], map["src" := A().Meta(), "dest" := B().Meta()],
          map[ChunkId("dest", 0) := Entry()], map[ChunkId("dest", 0) := [2]])
  }

  function AfterCopy(): State {
    State(map["src" := A(), "dest" := A()], map["src" := A().Meta(), "dest" := A().Meta()],
          map[ChunkId("dest", 0) := Entry()], map[ChunkId("dest", 0) := [2]])
  }

  lemma BeforeCopySteady(cs: nat)
    requires cs > 0
    ensures Steady(TwoVersions(), cs, BeforeCopy())
  {
    OneByteEntryRight(TwoVersions(), cs, B(), "dest", BeforeCopy().files);
  }

  /** A source of one chunk that is not cached: only the record is copied. */
  lemma NothingToCopy(u: State, cs: nat, src: string, dest: string)
    requires cs > 0 && src in u.objects && u.objects[src].contentLength == 1 && !IsHit(u, ChunkId(src, 0))
    ensures CopyLog(u, src, dest, cs) == [PutObject(dest, u.objects[src])]
  {
    OneByteLayout(cs);
    assert CopyChunks(u, src, dest, 0) == [];
    assert CopyChunk(u, src, dest, 0) == [];
    assert CopyChunks(u, src, dest, 1) == CopyChunks(u, src, dest, 0) + CopyChunk(u, src, dest, 0);
  }

  lemma CopyReached(cs: nat)
    requires cs > 0
    ensures Step(BeforeCopy(), cs, Calmly(CopyReq("src", "dest", Some(A())))) == AfterCopy()
  {
    var s := BeforeCopy();
    var commit := Commit("dest", A());
    var u := Apply(s, commit);
    NothingToCopy(u, cs, "src", "dest");
    OneReplay(s, commit);
    ReplayOne(s, [commit], PutObject("dest", A().Meta()));
  }

  lemma CopyHonest()
    ensures EnvironmentHonest(TwoVersions(), BeforeCopy(), CopyReq("src", "dest", Some(A())))
  {
  }

  /** A whole-object read of the plain store. */
  lemma PlainWhole(up: map<string, Object>, key: string)
    requires key in up
    ensures PlainBytes(up, key, None) == up[key].content
  {
  }

  /**
   * COPY onto a cached destination: the destination inherits the source's record but keeps its own chunk, so the
   * next GET serves the overwritten bytes although nothing crashed and upstream stores the copy.
   */
  lemma CopyOntoCachedDestination(cs: nat)
    requires cs > 0
    ensures Steady(TwoVersions(), cs, BeforeCopy())
    ensures EnvironmentHonest(TwoVersions(), BeforeCopy(), CopyReq("src", "dest", Some(A())))
    ensures Step(BeforeCopy(), cs, Calmly(CopyReq("src", "dest", Some(A())))) == AfterCopy()
    ensures PlainBytes(AfterCopy().upstream, "dest", None) == [1]
    ensures ReplyOf(AfterCopy(), cs, Calmly(GetReq("dest", None))) == Found(false, 1, [Data([2])])
  {
    BeforeCopySteady(cs);
    CopyHonest();
    CopyReached(cs);
    PlainWhole(AfterCopy().upstream, "dest");
    ServesFile(AfterCopy(), cs, "dest", 2);
  }

  // --- copying an object onto itself ---

  /** A one-byte object, cached. */
  function BeforeSelfCopy(): State {
    State(map["k" := A()], map["k" := A().Meta()], map[ChunkId("k", 0) := Entry()], map[ChunkId("k", 0) := [1]])
  }

  /** Its file has been truncated by the copy that was to read it. */
  function AfterSelfCopy(): State {
    BeforeSelfCopy().(files := map[ChunkId("k", 0) := []])
  }

  lemma SelfCopyReplayed(cs: nat)
    requires cs > 0
    ensures Replay(BeforeSelfCopy(), CopyLog(BeforeSelfCopy(), "k", "k", cs)) == AfterSelfCopy()
  {
    var s, id := BeforeSelfCopy(), ChunkId("k", 0);
    OneByteLayout(cs);
    assert CopyLog(s, "k", "k", cs) == CopyPrefix(s, "k", "k", 1);
    CopyChunksEffect(s, "k", "k", 1);
    assert CopyEntries(s, "k", "k", 0) == s.entries && CopyFiles(s, "k", "k", 0) == s.files;
    assert CopyEntries(s, "k", "k", 1) == s.entries[id := Entry()];
    assert CopyFiles(s, "k", "k", 1) == s.files[id := []];
  }

  lemma SelfCopyReached(cs: nat)
    requires cs > 0
    ensures Step(BeforeSelfCopy(), cs, Calmly(CopyReq("k", "k", Some(A())))) == AfterSelfCopy()
  {
    AcceptedCopyEffect(BeforeSelfCopy(), "k", "k", A(), cs);
    assert Apply(BeforeSelfCopy(), Commit("k", A())) == BeforeSelfCopy();
    SelfCopyReplayed(cs);
  }

  /** COPY of a cached object onto itself: the chunk stays registered, its file is emptied, and the next GET breaks. */
  lemma CopyOntoItself(cs: nat)
    requires cs > 0
    ensures Steady(TwoVersions(), cs, BeforeSelfCopy())
    ensures EnvironmentHonest(TwoVersions(), BeforeSelfCopy(), CopyReq("k", "k", Some(A())))
    ensures Step(BeforeSelfCopy(), cs, Calmly(CopyReq("k", "k", Some(A())))) == AfterSelfCopy()
    ensures ReplyOf(AfterSelfCopy(), cs, Calmly(GetReq("k", None))) == Found(false, 1, [Broken])
  {
    OneByteEntryRight(TwoVersions(), cs, A(), "k", BeforeSelfCopy().files);
    SelfCopyReached(cs);
    ServesFromDisk(AfterSelfCopy(), cs, "k");
  }

  // --- a crash inside the registration window ---

  /** A PUT of version a died after its only chunk was registered and before its object was. */
  function HalfRegistered(): State {
    State(map["k" := A()], map[], map[ChunkId("k", 0) := Entry()], map[ChunkId("k", 0) := [1]])
  }

  function Empty(): State {
    State(map[], map[], map[], map[])
  }

  function OneByte(): Stream {
    assert [Data([1])][1..] == [];
    assert Contents([Data([1])]) == [1];
    [Data([1])]
  }

  function UploadA(): Op {
    PutReq("k", OneByte(), None, 1, None, Accepted(A()))
  }

  /** A stream of one piece that fits a chunk is written as one chunk. */
  lemma OnePieceIngested(key: string, content: seq<byte>, cs: nat, disk: Disk)
    requires cs > 0 && disk.unwritable == {} && |content| == 1
    ensures Contents([Data(content)]) == content
    ensures Ingest(key, [], [Data(content)], None, cs, disk) == Ingested(content, 1, true)
  {
    var pieces := [Data(content)];
    assert pieces[1..] == [];
    assert Contents(pieces) == content + [] == content;
    Splitter.IngestOutcome(key, [], pieces, None, cs, disk);
    OneByteLayout(cs);
    IngestedAll(key, pieces, content, cs, disk, Ingest(key, [], pieces, None, cs, disk));
  }

  lemma IngestedAll(key: string, pieces: seq<Piece>, content: seq<byte>, cs: nat, disk: Disk, r: Ingested)
    requires Unbroken(pieces) && disk.unwritable == {}
    requires Splitter.Outcome(key, [], pieces, None, disk, [] + content, Quotient(0, 1), 1, r)
    ensures r == Ingested(content, 1, true)
  {
    assert [] + content == content;
  }

  function UploadLog(): Log {
    [DeleteObject("k"), SetFile(ChunkId("k", 0), [1]), Commit("k", A()), PutEntry(ChunkId("k", 0), Entry())]
  }

  /** The writes of a PUT of a one-byte object into an empty cache. */
  lemma OneByteWrites(s: State, cs: nat, key: string, o: Object, disk: Disk, clock: Clock)
    requires cs > 0 && key !in s.objects && |o.content| == 1
    ensures var p := Put(key, Ingested(o.content, 1, true), 1, None, Accepted(o));
            [DeleteObject(key), SetFile(ChunkId(key, 0), o.content), Commit(key, o),
             PutEntry(ChunkId(key, 0), ChunkMeta(1, clock(0), Complete))]
            + [PutObject(key, PutRecord(1, None, o, clock(1)))]
            == p.Log(s, cs, disk, clock)
  {
    var content := o.content;
    OneByteLayout(cs);
    OneByteBlock(content, cs);
    assert DropLog(s, key, cs, disk) == [DeleteObject(key)];
    assert WriteChunks(key, content, cs, 0) == [];
    assert WriteChunks(key, content, cs, 1) == [SetFile(ChunkId(key, 0), content)];
    assert RegisterChunks(key, 1, cs, 0, clock) == [];
    assert RegisterChunks(key, 1, cs, 1, clock) == [PutEntry(ChunkId(key, 0), ChunkMeta(1, clock(0), Complete))];
  }

  lemma UploadReplayed()
    ensures Replay(Empty(), UploadLog()) == HalfRegistered()
  {
    var log := UploadLog();
    assert log == log[..3] + [log[3]];
    assert log[..3] == log[..2] + [log[2]];
    assert log[..2] == log[..1] + [log[1]];
    assert log[..1] == [] + [log[0]];
    ReplayOne(Empty(), [], log[0]);
    ReplayOne(Empty(), log[..1], log[1]);
    ReplayOne(Empty(), log[..2], log[2]);
    ReplayOne(Empty(), log[..3], log[3]);
  }

  lemma UploadPerformed(cs: nat)
    requires cs > 0
    ensures Performed(Empty(), cs, Calmly(UploadA()).(crashedAfter := Some(4))) == UploadLog()
  {
    var e := Calmly(UploadA()).(crashedAfter := Some(4));
    OnePieceIngested("k", [1], cs, e.disk);
    OneByteWrites(Empty(), cs, "k", A(), e.disk, e.clock);
    var log := LogOf(Empty(), cs, e);
    assert log == UploadLog() + [PutObject("k", PutRecord(1, None, A(), 0))];
    assert log[..4] == UploadLog();
  }

  /** That state is a crash point of a legal PUT into an empty cache. */
  lemma HalfRegisteredReachable(cs: nat)
    requires cs > 0
    ensures Steady(TwoVersions(), cs, Empty()) && Legal(TwoVersions(), cs, Empty(), Calmly(UploadA()).(crashedAfter := Some(4)))
    ensures Step(Empty(), cs, Calmly(UploadA()).(crashedAfter := Some(4))) == HalfRegistered()
  {
    UploadPerformed(cs);
    UploadReplayed();
    UploadHonest();
    CoherentGuards(TwoVersions(), cs, Empty(), Calmly(UploadA()).(crashedAfter := Some(4)));
  }

  lemma UploadHonest()
    ensures EnvironmentHonest(TwoVersions(), Empty(), UploadA())
  {
    assert [Data([1])][1..] == [];
    assert Contents([Data([1])]) == [1];
  }

  /** Upstream has moved on to version b. */
  function Overwritten(): State {
    HalfRegistered().(upstream := map["k" := B()])
  }

  /** The next HEAD finds no record to compare and adopts version b's. */
  function Adopted(): State {
    Overwritten().(objects := map["k" := B().Meta()])
  }

  lemma OverwriteReached(cs: nat)
    requires cs > 0
    ensures Step(HalfRegistered(), cs, Calmly(OutOfBand("k", Some(B())))) == Overwritten()
  {
    OneReplay(HalfRegistered(), Commit("k", B()));
  }

  lemma AdoptedReached(cs: nat, disk: Disk)
    requires cs > 0
    ensures Replay(Overwritten(), RefreshLog(Overwritten(), "k", cs, disk)) == Adopted()
  {
    RefreshEffect(Overwritten(), "k", cs, disk);
  }

  /**
   * A crash inside the registration window followed by a change upstream: the next GET adopts the new version's
   * record and serves the old version's chunk under it.
   */
  lemma CrashThenOverwrite(cs: nat)
    requires cs > 0
    ensures EnvironmentHonest(TwoVersions(), HalfRegistered(), OutOfBand("k", Some(B())))
    ensures Step(HalfRegistered(), cs, Calmly(OutOfBand("k", Some(B())))) == Overwritten()
    ensures PlainBytes(Overwritten().upstream, "k", None) == [2]
    ensures ReplyOf(Overwritten(), cs, Calmly(GetReq("k", None))) == Found(false, 1, [Data([1])])
  {
    OverwriteReached(cs);
    var e := Calmly(GetReq("k", None));
    AdoptedReached(cs, e.disk);
    ServesFile(Adopted(), cs, "k", 1);
    RefreshIdempotent(Adopted(), "k", cs, e.disk);
    assert StreamOf(Overwritten(), "k", None, cs, e.disk) == StreamOf(Adopted(), "k", None, cs, e.disk);
  }

  /** A DELETE upstream has accepted: the cache has no record to count the chunks by. */
  function Deleted(): State {
    HalfRegistered().(upstream := map[])
  }

  lemma DeleteReached(cs: nat)
    requires cs > 0
    ensures Step(HalfRegistered(), cs, Calmly(DeleteReq("k", true))) == Deleted()
  {
    var disk := Calmly(DeleteReq("k", true)).disk;
    AcceptedDeleteEffect(HalfRegistered(), "k", cs, disk);
    RemoveReached();
    DropNothing(cs, disk);
  }

  lemma RemoveReached()
    ensures Apply(HalfRegistered(), Remove("k")) == Deleted()
  {
    assert HalfRegistered().upstream - {"k"} == map[];
  }

  /** Without a record, dropping removes nothing. */
  lemma DropNothing(cs: nat, disk: Disk)
    requires cs > 0
    ensures Replay(Deleted(), DropLog(Deleted(), "k", cs, disk)) == Deleted()
  {
    assert DropLog(Deleted(), "k", cs, disk) == [DeleteObject("k")];
    OneReplay(Deleted(), DeleteObject("k"));
    assert Deleted().objects - {"k"} == Deleted().objects;
  }

  /**
   * A crash inside the registration window followed by a DELETE: its success leaves the chunk registered, and when the
   * key is written again behind the proxy's back, the next GET serves the deleted object's byte.
   */
  lemma CrashThenDelete(cs: nat)
    requires cs > 0
    ensures !Legal(TwoVersions(), cs, HalfRegistered(), Calmly(DeleteReq("k", true)))
    ensures Step(HalfRegistered(), cs, Calmly(DeleteReq("k", true))) == Deleted()
    ensures Step(Deleted(), cs, Calmly(OutOfBand("k", Some(B())))) == Overwritten()
    ensures PlainBytes(Overwritten().upstream, "k", None) == [2]
    ensures ReplyOf(Overwritten(), cs, Calmly(GetReq("k", None))) == Found(false, 1, [Data([1])])
  {
    DeleteReached(cs);
    OneReplay(Deleted(), Commit("k", B()));
    CrashThenOverwrite(cs);
    DeleteUnguarded(cs);
  }

  lemma DeleteUnguarded(cs: nat)
    requires cs > 0
    ensures !Guarded(TwoVersions(), cs, HalfRegistered(), Calmly(DeleteReq("k", true)))
  {
    assert ChunkId("k", 0) in HalfRegistered().entries;
  }

  /** The client's retry with another body, whose upload fails. */
  function RetryB(): Op {
    assert [Data([2])][1..] == [];
    assert Contents([Data([2])]) == [2];
    PutReq("k", [Data([2])], None, 1, None, Rejected(None))
  }

  /** The retry has overwritten the leftover's file; upstream still stores version a. */
  function Retried(): State {
    HalfRegistered().(files := map[ChunkId("k", 0) := [2]])
  }

  /** The writes of a PUT of a one-byte body without a record to drop, when the upload fails and stores nothing. */
  lemma RejectedWrites(s: State, cs: nat, key: string, content: seq<byte>, disk: Disk, clock: Clock)
    requires cs > 0 && key !in s.objects && |content| == 1
    ensures Put(key, Ingested(content, 1, true), 1, None, Rejected(None)).Log(s, cs, disk, clock)
            == [DeleteObject(key)] + [SetFile(ChunkId(key, 0), content)]
  {
    OneByteLayout(cs);
    OneByteBlock(content, cs);
    assert DropLog(s, key, cs, disk) == [DeleteObject(key)];
    assert WriteChunks(key, content, cs, 0) == [];
    assert WriteChunks(key, content, cs, 1) == [SetFile(ChunkId(key, 0), content)];
  }

  lemma RetryReached(cs: nat)
    requires cs > 0
    ensures Step(HalfRegistered(), cs, Calmly(RetryB())) == Retried()
  {
    var s, e := HalfRegistered(), Calmly(RetryB());
    OnePieceIngested("k", [2], cs, e.disk);
    RejectedWrites(s, cs, "k", [2], e.disk, e.clock);
    OneReplay(s, DeleteObject("k"));
    ReplayOne(s, [DeleteObject("k")], SetFile(ChunkId("k", 0), [2]));
  }

  /**
   * A crash inside the registration window followed by a retry whose upload fails: nothing changed upstream, no file
   * was refused and nothing crashed again, and the next GET serves the bytes of the failed retry.
   */
  lemma CrashThenRetry(cs: nat)
    requires cs > 0
    ensures EnvironmentHonest(TwoVersions(), HalfRegistered(), RetryB())
    ensures !Legal(TwoVersions(), cs, HalfRegistered(), Calmly(RetryB()))
    ensures Step(HalfRegistered(), cs, Calmly(RetryB())) == Retried()
    ensures PlainBytes(Retried().upstream, "k", None) == [1]
    ensures ReplyOf(Retried(), cs, Calmly(GetReq("k", None))) == Found(false, 1, [Data([2])])
  {
    RetryReached(cs);
    RetryUnguarded(cs);
    RetryServes(cs);
    PlainWhole(Retried().upstream, "k");
  }

  lemma RetryServes(cs: nat)
    requires cs > 0
    ensures ReplyOf(Retried(), cs, Calmly(GetReq("k", None))) == Found(false, 1, [Data([2])])
  {
    var e := Calmly(GetReq("k", None));
    var adopted := Retried().(objects := map["k" := A().Meta()]);
    RefreshEffect(Retried(), "k", cs, e.disk);
    ServesFile(adopted, cs, "k", 2);
    RefreshIdempotent(adopted, "k", cs, e.disk);
    assert StreamOf(Retried(), "k", None, cs, e.disk) == StreamOf(adopted, "k", None, cs, e.disk);
  }

  /** Version a's leftover and the file the retry leaves do not fit together. */
  lemma RetryUnguarded(cs: nat)
    requires cs > 0
    ensures !Guarded(TwoVersions(), cs, HalfRegistered(), Calmly(RetryB()))
  {
    var s, e, id := HalfRegistered(), Calmly(RetryB()), ChunkId("k", 0);
    OnePieceIngested("k", [2], cs, e.disk);
    assert id in s.entries && IsLeftover(s, "k", id);
    RetriedWrong(cs, Put("k", Ingested([2], 1, true), 1, None, Rejected(None)), e.disk);
  }

  /** The leftover's file holds the retry's byte, and upstream another. */
  lemma RetriedWrong(cs: nat, p: Put, disk: Disk)
    requires cs > 0 && p == Put("k", Ingested([2], 1, true), 1, None, Rejected(None))
    ensures !EndsWell(cs, HalfRegistered(), p, disk, ChunkId("k", 0))
  {
    OneByteBlock([1], cs);
    OneByteBlock([2], cs);
    assert FileAfterFailure(HalfRegistered(), cs, p, disk, ChunkId("k", 0)) == Some([2]);
    assert StoredAfter(HalfRegistered(), p) == Some(A());
  }

  // --- a chunk file that no count covers ---

  /** A PUT of `content` whose upload fails, and one whose stream breaks at once. */
  function FailedUpload(content: Body): Op {
    assert [Data(content)][1..] == [];
    assert Contents([Data(content)]) == content;
    PutReq("k", [Data(content)], None, |content|, None, Rejected(None))
  }

  function BrokenUpload(): Op {
    PutReq("k", [Broken], None, 0, None, Rejected(None))
  }

  /** The chunk files of the first PUT. */
  function LeftBehind(content: Body, cs: nat): State
    requires cs > 0
  {
    Empty().(files := PutIndexed(map[], "k", NumChunks(|content|, cs), BlockOf(content, cs)))
  }

  lemma FailedUploadReached(content: Body, cs: nat)
    requires cs > 0
    ensures Step(Empty(), cs, Calmly(FailedUpload(content))) == LeftBehind(content, cs)
  {
    var e := Calmly(FailedUpload(content));
    var p := AsPut(e.op, cs, e.disk);
    Splitter.IngestOutcome("k", [], e.op.pieces, None, cs, e.disk);
    assert [] + Contents(e.op.pieces) == content;
    PutInSteps(Empty(), p, cs, e.disk, e.clock);
    DropEffect(Empty(), "k", cs, e.disk);
  }

  lemma BrokenUploadReached(s: State, cs: nat)
    requires cs > 0 && "k" !in s.objects
    ensures Step(s, cs, Calmly(BrokenUpload())) == s.(files := WithoutFiles(s.files, "k", 1, Disk({}, {})))
  {
    var e := Calmly(BrokenUpload());
    var p := AsPut(e.op, cs, e.disk);
    PutInSteps(s, p, cs, e.disk, e.clock);
    DropEffect(s, "k", cs, e.disk);
  }

  /**
   * From an empty cache, two legal PUTs in which nothing crashes and the disk refuses nothing: the upload of a body of
   * more than one chunk fails, and then a stream breaks before its first byte. The second chunk's file stays, with no
   * record, no entry and no object upstream, and no later cleanup counts that far.
   */
  lemma UncountedFile(content: Body, cs: nat)
    requires 0 < cs < |content|
    ensures var failed, broken := Calmly(FailedUpload(content)), Calmly(BrokenUpload());
            var t := StateAt(Empty(), cs, [failed, broken], 2);
            && LegalRun(TwoVersions(), cs, Empty(), [failed, broken])
            && t.upstream == map[] && t.objects == map[] && t.entries == map[]
            && ChunkId("k", 1) in t.files
  {
    var failed, broken := Calmly(FailedUpload(content)), Calmly(BrokenUpload());
    var run, s := [failed, broken], LeftBehind(content, cs);
    FailedUploadReached(content, cs);
    BrokenUploadReached(s, cs);
    assert run[1..] == [broken] && [broken][1..] == [];
    assert run[0] == failed && [broken][0] == broken;
    IndexInRange(|content|, cs, 1);
    PutIndexedAt(map[], "k", NumChunks(|content|, cs), BlockOf(content, cs));
    assert s.entries == map[];
    StateAtTwo(Empty(), cs, run);
    assert Legal(TwoVersions(), cs, Empty(), failed);
    assert Legal(TwoVersions(), cs, s, broken);
  }

  lemma StateAtTwo(s: State, cs: nat, run: seq<Event>)
    requires cs > 0 && |run| == 2
    ensures StateAt(s, cs, run, 2) == Step(Step(s, cs, run[0]), cs, run[1])
  {
    assert StateAt(s, cs, run, 2) == StateAt(Step(s, cs, run[0]), cs, run[1..], 1);
  }
}

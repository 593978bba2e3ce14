/**
 * Whole runs of the proxy: requests, evictions, changes made behind its back, lost files and process crashes in any
 * order. The cached system refines the plain upstream store.
 */
module Runs {
  import opened Basics
  import opened ChunkKey
  import opened Blocks
  import opened CacheModel
  import opened Coherence
  import opened Operations
  import opened Reading
  import opened ByteRange
  import opened PutOperation
  import opened Splitter
  import opened Copying

  datatype Op =
    | PutReq(key: string, pieces: Stream, closedAt: Option<nat>, declared: u64, contentType: Option<string>,
             upload: Upload)
    | GetReq(key: string, range: Option<string>)
    | HeadReq(key: string)
    | DeleteReq(key: string, accepted: bool)
    | CopyReq(src: string, dest: string, created: Option<Object>)
    | Evict(victims: seq<ChunkId>)
    | OutOfBand(key: string, now: Option<Object>)
    | LoseFile(id: ChunkId)

  /** One operation with the disk faults and clock it meets, and the write after which the process died, if it did. */
  datatype Event = Event(op: Op, disk: Disk, clock: Clock, crashedAfter: Option<nat>)

  function AsPut(op: Op, cs: nat, disk: Disk): (p: Put)
    requires cs > 0 && op.PutReq?
    ensures p.ingested.written < TWO_TO_THE_64
  {
    Put(op.key, Ingest(op.key, [], op.pieces, op.closedAt, cs, disk), op.declared, op.contentType, op.upload)
  }

  /** The GET handler asks for the metadata, then reads the window the Range header selects, which asks again. */
  function GetLog(s: State, key: string, range: Option<string>, cs: nat, disk: Disk, clock: Clock): Log
    requires cs > 0 && key in s.upstream
  {
    var refresh := RefreshLog(s, key, cs, disk);
    var t := Replay(s, refresh);
    var w := Window(range, |s.upstream[key].content|);
    refresh + (if key in t.upstream then ReadLog(t, key, cs, w.0, w.1, disk, clock) else [])
  }

  function LogOf(s: State, cs: nat, e: Event): Log
    requires cs > 0
  {
    match e.op
    case PutReq(_, _, _, _, _, _) => AsPut(e.op, cs, e.disk).Log(s, cs, e.disk, e.clock)
    case GetReq(key, range) => if key in s.upstream then GetLog(s, key, range, cs, e.disk, e.clock) else []
    case HeadReq(key) => if key in s.upstream then RefreshLog(s, key, cs, e.disk) else []
    case DeleteReq(key, accepted) =>
      if accepted then AcceptedDelete(s, key, cs, e.disk) else []
    case CopyReq(src, dest, created) =>
      (match created
       case None => []
       case Some(o) => AcceptedCopy(s, src, dest, o, cs))
    case Evict(victims) => EvictLog(victims, e.disk)
    case OutOfBand(key, now) => (match now case None => [Remove(key)] case Some(o) => [Commit(key, o)])
    case LoseFile(id) => [DeleteFile(id)]
  }

  function Performed(s: State, cs: nat, e: Event): Log
    requires cs > 0
  {
    var log := LogOf(s, cs, e);
    match e.crashedAfter
    case None => log
    case Some(k) => log[..Min(k, |log|)]
  }

  function Step(s: State, cs: nat, e: Event): State
    requires cs > 0
  {
    Replay(s, Performed(s, cs, e))
  }

  // --- replies ---

  /** Answer to a GET: none, 404, or a status, a Content-Length and a byte stream. */
  datatype Reply =
    | Silent
    | NotFound
    | Found(isPartial: bool, contentLength: nat, pieces: seq<Piece>)

  /** The stream a GET returns once the metadata is fresh. */
  function StreamOf(s: State, key: string, range: Option<string>, cs: nat, disk: Disk): seq<Piece>
    requires cs > 0 && key in s.upstream
  {
    var size := |s.upstream[key].content|;
    var w := Window(range, size);
    ReadPieces(Replay(s, RefreshLog(s, key, cs, disk)), key, cs, size, w.0, w.1)
  }

  function ReplyOf(s: State, cs: nat, e: Event): Reply
    requires cs > 0
  {
    if !e.op.GetReq? || e.crashedAfter.Some? then Silent
    else if e.op.key !in s.upstream then NotFound
    else
      var w := Window(e.op.range, |s.upstream[e.op.key].content|);
      Found(w.2, SaturatingSub(w.1, w.0), StreamOf(s, e.op.key, e.op.range, cs, e.disk))
  }

  // --- the plain store ---

  /** The same operation on a store without a cache. */
  function PlainStep(up: map<string, Object>, op: Op): map<string, Object> {
    match op
    case PutReq(key, _, _, _, _, upload) =>
      (match upload.Effect() case None => up case Some(o) => up[key := o])
    case DeleteReq(key, accepted) => if accepted then up - {key} else up
    case CopyReq(_, dest, created) => (match created case None => up case Some(o) => up[dest := o])
    case OutOfBand(key, now) => (match now case None => up - {key} case Some(o) => up[key := o])
    case _ => up
  }

  /** The bytes a plain store answers to a GET. */
  function PlainBytes(up: map<string, Object>, key: string, range: Option<string>): seq<byte>
    requires key in up
  {
    var content := up[key].content;
    var w := Window(range, |content|);
    content[w.0..w.1]
  }

  /** The reply carries the plain store's answer, or a prefix of it followed by a stream error. */
  predicate Answers(reply: Reply, up: map<string, Object>, e: Event) {
    match reply
    case Silent => !e.op.GetReq? || e.crashedAfter.Some?
    case NotFound => e.op.GetReq? && e.op.key !in up
    case Found(isPartial, contentLength, pieces) =>
      && e.op.GetReq? && e.op.key in up
      && var bytes := PlainBytes(up, e.op.key, e.op.range);
         && isPartial == Window(e.op.range, |up[e.op.key].content|).2
         && contentLength == |bytes|
         && Contents(pieces) <= bytes
         && (Unbroken(pieces) ==> Contents(pieces) == bytes)
  }

  // --- what a run may do ---

  /** What is assumed of the upstream store. */
  ghost predicate EnvironmentHonest(names: Naming, s: State, op: Op) {
    match op
    case PutReq(_, pieces, _, declared, _, upload) =>
      && (upload.Effect().Some? ==> NamedBy(names, upload.Effect().value))
      && (upload.Accepted? && Unbroken(pieces) ==>
            upload.stored.content == Contents(pieces) && declared == |Contents(pieces)|)
    case CopyReq(src, dest, Some(o)) =>
      NamedBy(names, o) && src in s.upstream && o.content == s.upstream[src].content
    case OutOfBand(_, Some(o)) => NamedBy(names, o)
    case _ => true
  }

  /**
   * What the code does not defend against. A crash can leave chunks registered without their object; a later PUT,
   * DELETE or change upstream then meets leftovers it does not know of. And a copy may meet chunks at its destination.
   * What an operation needs of them depends on whether it runs to its end or may be cut anywhere.
   */
  ghost predicate Guarded(names: Naming, cs: nat, s: State, e: Event)
    requires cs > 0
  {
    match e.op
    case PutReq(key, _, _, _, _, _) =>
      var p := AsPut(e.op, cs, e.disk);
      if e.crashedAfter.None? then PutSafeAtEnd(cs, s, p, e.disk) else PutSafeThroughout(cs, s, p)
    case DeleteReq(key, accepted) => accepted ==> Recorded(s, key)
    case CopyReq(src, dest, Some(o)) => CopyGuarded(names, cs, s, src, dest, o, e.crashedAfter.Some?)
    case OutOfBand(key, None) => Recorded(s, key)
    case OutOfBand(key, Some(o)) => LeftoversFit(cs, s, key, o)
    case _ => true
  }

  ghost predicate CopyGuarded(names: Naming, cs: nat, s: State, src: string, dest: string, o: Object, mayCrash: bool)
    requires cs > 0
  {
    if src !in s.objects then LeftoversFit(cs, s, dest, o)
    else if mayCrash then LeftoversFit(cs, s, dest, o) && CopySafeThroughout(names, cs, s, src, dest)
    else LeftoversAgree(names, cs, s, src, dest)
  }

  ghost predicate Legal(names: Naming, cs: nat, s: State, e: Event)
    requires cs > 0
  {
    EnvironmentHonest(names, s, e.op) && Guarded(names, cs, s, e)
  }

  // --- each operation obeys the discipline ---

  lemma AsPutHonest(names: Naming, cs: nat, s: State, op: Op, disk: Disk)
    requires cs > 0 && op.PutReq? && EnvironmentHonest(names, s, op)
    ensures Honest(names, cs, AsPut(op, cs, disk))
  {
    IngestOutcome(op.key, [], op.pieces, op.closedAt, cs, disk);
    assert [] + Contents(op.pieces) == Contents(op.pieces);
  }

  lemma {:induction false} EvictDisciplined(names: Naming, cs: nat, s: State, victims: seq<ChunkId>, disk: Disk)
    requires cs > 0
    ensures Disciplined(names, cs, s, EvictLog(victims, disk))
  {
    if victims != [] {
      var rest := victims[..|victims| - 1];
      var id := victims[|victims| - 1];
      var a := EvictLog(rest, disk);
      EvictDisciplined(names, cs, s, rest, disk);
      if id in disk.undeletable {
        assert a + DeleteChunkFile(id, disk) == a;
      } else {
        DisciplinedOne(names, cs, s, a, DeleteFile(id));
      }
      DisciplinedOne(names, cs, s, a + DeleteChunkFile(id, disk), DeleteEntry(id));
    }
  }

  /** Eviction removes exactly the victims: their entries, and their files if the disk unlinks them. */
  lemma {:induction false} EvictEffect(s: State, victims: seq<ChunkId>, disk: Disk, id: ChunkId)
    ensures var t := Replay(s, EvictLog(victims, disk));
            && t.upstream == s.upstream && t.objects == s.objects
            && (id in t.entries <==> id in s.entries && id !in victims)
            && (id in t.entries ==> t.entries[id] == s.entries[id])
            && (id in t.files <==> id in s.files && (id in victims ==> id in disk.undeletable))
            && (id in t.files ==> t.files[id] == s.files[id])
  {
    if victims != [] {
      var rest := victims[..|victims| - 1];
      var last := victims[|victims| - 1];
      var a := EvictLog(rest, disk);
      EvictEffect(s, rest, disk, id);
      DeleteChunkFileEffect(s, a, last, disk);
      ReplayOne(s, a + DeleteChunkFile(last, disk), DeleteEntry(last));
      assert id in victims <==> id in rest || id == last by {
        assert victims == rest + [last];
      }
    }
  }

  lemma OneWrite(names: Naming, cs: nat, s: State, w: Write)
    requires cs > 0 && Allowed(names, cs, s, w)
    ensures Disciplined(names, cs, s, [w]) && Replay(s, [w]) == Apply(s, w)
  {
    DisciplinedOne(names, cs, s, [], w);
    ReplayOne(s, [], w);
    assert [] + [w] == [w];
  }

  /** What a DELETE writes once upstream has accepted it. */
  function AcceptedDelete(s: State, key: string, cs: nat, disk: Disk): Log
    requires cs > 0
  {
    [Remove(key)] + DropLog(Apply(s, Remove(key)), key, cs, disk)
  }

  lemma AcceptedDeleteEffect(s: State, key: string, cs: nat, disk: Disk)
    requires cs > 0
    ensures var u := Apply(s, Remove(key));
            Replay(s, AcceptedDelete(s, key, cs, disk)) == Replay(u, DropLog(u, key, cs, disk))
  {
    ReplayOne(s, [], Remove(key));
    assert [] + [Remove(key)] == [Remove(key)];
    ReplayConcat(s, [Remove(key)], DropLog(Apply(s, Remove(key)), key, cs, disk));
  }

  lemma DeleteDisciplined(names: Naming, cs: nat, s: State, key: string, disk: Disk)
    requires cs > 0 && CrashSafe(names, cs, s) && Recorded(s, key)
    ensures var log := AcceptedDelete(s, key, cs, disk);
            var t := Replay(s, log);
            && Disciplined(names, cs, s, log)
            && t.upstream == s.upstream - {key}
            && key !in t.objects && NoEntries(t, key)
  {
    var u := Apply(s, Remove(key));
    OneWrite(names, cs, s, Remove(key));
    AllowedKeepsSafe(names, cs, s, Remove(key));
    DropComplete(names, cs, u, key, disk);
    DropEffect(u, key, cs, disk);
    DisciplinedConcat(names, cs, s, [Remove(key)], DropLog(u, key, cs, disk));
    ReplayConcat(s, [Remove(key)], DropLog(u, key, cs, disk));
  }

  /** A DELETE of an object with leftovers ends with them still registered, and governed by nothing. */
  lemma DeleteEndsExactly(names: Naming, cs: nat, s: State, key: string, disk: Disk)
    requires cs > 0 && CrashSafe(names, cs, s)
    ensures var log := AcceptedDelete(s, key, cs, disk);
            && (CrashSafe(names, cs, Replay(s, log)) <==> Recorded(s, key))
            && (SafeThroughout(names, cs, s, log) <==> Recorded(s, key))
  {
    var log := AcceptedDelete(s, key, cs, disk);
    DisciplineExactly(names, cs, s, log);
    if Recorded(s, key) {
      DeleteDisciplined(names, cs, s, key, disk);
      DisciplineSafe(names, cs, s, log, |log|);
    } else {
      AcceptedDeleteEffect(s, key, cs, disk);
      DropEffect(Apply(s, Remove(key)), key, cs, disk);
      var id :| id in s.entries && id.key == key;
      assert id in Replay(s, log).entries;
    }
    assert log[..|log|] == log;
  }

  /** What a COPY writes once upstream has stored the copy. */
  function AcceptedCopy(s: State, src: string, dest: string, o: Object, cs: nat): Log
    requires cs > 0
  {
    [Commit(dest, o)] + CopyLog(Apply(s, Commit(dest, o)), src, dest, cs)
  }

  lemma AcceptedCopyEffect(s: State, src: string, dest: string, o: Object, cs: nat)
    requires cs > 0
    ensures var u := Apply(s, Commit(dest, o));
            Replay(s, AcceptedCopy(s, src, dest, o, cs)) == Replay(u, CopyLog(u, src, dest, cs))
  {
    ReplayOne(s, [], Commit(dest, o));
    assert [] + [Commit(dest, o)] == [Commit(dest, o)];
    ReplayConcat(s, [Commit(dest, o)], CopyLog(Apply(s, Commit(dest, o)), src, dest, cs));
  }

  /** The commit upstream does not change what a copy finds in the cache. */
  lemma CommitIrrelevant(names: Naming, cs: nat, s: State, src: string, dest: string, o: Object)
    requires cs > 0 && CrashSafe(names, cs, s) && NamedBy(names, o) && src in s.objects
    ensures var u := Apply(s, Commit(dest, o));
            && SafeBut(names, cs, u, src, dest)
            && (LeftoversAgree(names, cs, u, src, dest) <==> LeftoversAgree(names, cs, s, src, dest))
            && (CopySafeThroughout(names, cs, u, src, dest) <==> CopySafeThroughout(names, cs, s, src, dest))
  {
    var u := Apply(s, Commit(dest, o));
    forall id: ChunkId
      ensures LeftoverAgrees(names, cs, u, s.objects[src], src, id) <==> LeftoverAgrees(names, cs, s, s.objects[src], src, id)
    {
    }
    forall idx: u64
      ensures StepSafeAt(names, cs, u, s.objects[src], src, dest, idx) <==> StepSafeAt(names, cs, s, s.objects[src], src, dest, idx)
    {
    }
  }

  /** A copy without a record to copy is its commit upstream. */
  lemma BareCopyExactly(names: Naming, cs: nat, s: State, src: string, dest: string, o: Object)
    requires cs > 0 && CrashSafe(names, cs, s) && NamedBy(names, o) && src !in s.objects
    ensures var log := AcceptedCopy(s, src, dest, o, cs);
            && (CrashSafe(names, cs, Replay(s, log)) <==> LeftoversFit(cs, s, dest, o))
            && (SafeThroughout(names, cs, s, log) <==> LeftoversFit(cs, s, dest, o))
  {
    var log := AcceptedCopy(s, src, dest, o, cs);
    assert log == [] + [Commit(dest, o)];
    ReplayOne(s, [], Commit(dest, o));
    DisciplinedSnoc(names, cs, s, [], Commit(dest, o));
    DisciplineExactly(names, cs, s, log);
    CommitExactly(names, cs, s, dest, o);
  }

  /** The guard of a copy is exact, for copies that end and for copies that may be cut anywhere. */
  lemma CopyGuardExactly(names: Naming, cs: nat, s: State, src: string, dest: string, o: Object)
    requires cs > 0 && CrashSafe(names, cs, s) && NamedBy(names, o)
    ensures var log := AcceptedCopy(s, src, dest, o, cs);
            && (CrashSafe(names, cs, Replay(s, log)) <==> CopyGuarded(names, cs, s, src, dest, o, false))
            && (SafeThroughout(names, cs, s, log) <==> CopyGuarded(names, cs, s, src, dest, o, true))
  {
    var log := AcceptedCopy(s, src, dest, o, cs);
    var u := Apply(s, Commit(dest, o));
    if src !in s.objects {
      BareCopyExactly(names, cs, s, src, dest, o);
    } else {
      CommitIrrelevant(names, cs, s, src, dest, o);
      AcceptedCopyEffect(s, src, dest, o, cs);
      CopySafeExactly(names, cs, u, src, dest);
      CopyThroughoutExactly(names, cs, s, src, dest, o);
    }
  }

  lemma CopyThroughoutExactly(names: Naming, cs: nat, s: State, src: string, dest: string, o: Object)
    requires cs > 0 && CrashSafe(names, cs, s) && NamedBy(names, o) && src in s.objects
    ensures SafeThroughout(names, cs, s, AcceptedCopy(s, src, dest, o, cs)) <==>
              LeftoversFit(cs, s, dest, o) && CopySafeThroughout(names, cs, s, src, dest)
  {
    var u := Apply(s, Commit(dest, o));
    var commit, copy := [Commit(dest, o)], CopyLog(u, src, dest, cs);
    DisciplineExactly(names, cs, s, commit + copy);
    DisciplinedParts(names, cs, s, commit, copy);
    DisciplinedSnoc(names, cs, s, [], Commit(dest, o));
    assert [] + commit == commit;
    ReplayOne(s, [], Commit(dest, o));
    CommitExactly(names, cs, s, dest, o);
    CommitIrrelevant(names, cs, s, src, dest, o);
    if LeftoversFit(cs, s, dest, o) {
      CopyDisciplinedExactly(names, cs, u, src, dest);
    }
  }

  /** A GET writes access times and nothing else once the metadata is fresh; its second HEAD changes nothing. */
  lemma GetDisciplined(names: Naming, cs: nat, s: State, key: string, range: Option<string>, disk: Disk, clock: Clock)
    requires cs > 0 && CrashSafe(names, cs, s) && key in s.upstream
    ensures var log := GetLog(s, key, range, cs, disk, clock);
            var t := Replay(s, RefreshLog(s, key, cs, disk));
            && Disciplined(names, cs, s, log)
            && CrashSafe(names, cs, t) && Current(t, key) && t.upstream == s.upstream
            && SameButTimes(t, Replay(s, log))
  {
    var refresh := RefreshLog(s, key, cs, disk);
    var t := Replay(s, refresh);
    RefreshDisciplined(names, cs, s, key, disk);
    var size := |s.upstream[key].content|;
    var w := Window(range, size);
    var again := RefreshLog(t, key, cs, disk);
    RefreshDisciplined(names, cs, t, key, disk);
    RefreshIdempotent(t, key, cs, disk);
    var begin, limit := ReadFrom(size, cs, w.0, w.1), ReadTo(size, cs, w.0, w.1);
    var touches := TouchLog(t, key, begin, limit, clock);
    TouchDisciplined(names, cs, t, key, begin, limit, clock);
    TouchEffect(t, key, begin, limit, clock);
    DisciplinedConcat(names, cs, t, again, touches);
    ReplayConcat(t, again, touches);
    DisciplinedConcat(names, cs, s, refresh, again + touches);
    ReplayConcat(s, refresh, again + touches);
    assert GetLog(s, key, range, cs, disk, clock) == refresh + (again + touches);
  }

  /** A disciplined log is safe throughout, and at its end. */
  lemma DisciplinedIsSafe(names: Naming, cs: nat, s: State, log: Log)
    requires cs > 0 && CrashSafe(names, cs, s) && Disciplined(names, cs, s, log)
    ensures SafeThroughout(names, cs, s, log) && CrashSafe(names, cs, Replay(s, log))
  {
    DisciplineExactly(names, cs, s, log);
    DisciplineSafe(names, cs, s, log, |log|);
    assert log[..|log|] == log;
  }

  /** The operations that need no guard. */
  lemma UnguardedDisciplined(names: Naming, cs: nat, s: State, e: Event)
    requires cs > 0 && CrashSafe(names, cs, s)
    requires e.op.GetReq? || e.op.HeadReq? || e.op.Evict? || e.op.LoseFile?
    ensures Disciplined(names, cs, s, LogOf(s, cs, e))
  {
    match e.op {
      case GetReq(key, range) =>
        if key in s.upstream {
          GetDisciplined(names, cs, s, key, range, e.disk, e.clock);
        }
      case HeadReq(key) =>
        if key in s.upstream {
          RefreshDisciplined(names, cs, s, key, e.disk);
        }
      case Evict(victims) => EvictDisciplined(names, cs, s, victims, e.disk);
      case LoseFile(id) => OneWrite(names, cs, s, DeleteFile(id));
    }
  }

  /** A single write, whole or cut. */
  lemma OneWriteExactly(names: Naming, cs: nat, s: State, w: Write)
    requires cs > 0 && CrashSafe(names, cs, s)
    ensures CrashSafe(names, cs, Replay(s, [w])) <==> Allowed(names, cs, s, w)
    ensures SafeThroughout(names, cs, s, [w]) <==> Allowed(names, cs, s, w)
  {
    DisciplineExactly(names, cs, s, [w]);
    DisciplinedSnoc(names, cs, s, [], w);
    ReplayOne(s, [], w);
    assert [] + [w] == [w];
    AllowedExactly(names, cs, s, w);
  }

  /** What the guard of an event is exact for: its end, or all its crash points. */
  ghost predicate GuardExact(names: Naming, cs: nat, s: State, e: Event)
    requires cs > 0
  {
    Guarded(names, cs, s, e) <==>
      if e.crashedAfter.None? then CrashSafe(names, cs, Replay(s, LogOf(s, cs, e)))
      else SafeThroughout(names, cs, s, LogOf(s, cs, e))
  }

  lemma OutOfBandExactly(names: Naming, cs: nat, s: State, e: Event)
    requires cs > 0 && CrashSafe(names, cs, s) && EnvironmentHonest(names, s, e.op) && e.op.OutOfBand?
    ensures GuardExact(names, cs, s, e)
  {
    match e.op.now {
      case None =>
        OneWriteExactly(names, cs, s, Remove(e.op.key));
        RemoveExactly(names, cs, s, e.op.key);
        AllowedExactly(names, cs, s, Remove(e.op.key));
      case Some(o) =>
        OneWriteExactly(names, cs, s, Commit(e.op.key, o));
        CommitExactly(names, cs, s, e.op.key, o);
    }
  }

  /**
   * The guard is exact: from a crash-safe state, an operation that ends leaves a crash-safe state if and only if it
   * is guarded, and one that may be cut anywhere is safe at every cut if and only if it is guarded.
   */
  lemma GuardedExactly(names: Naming, cs: nat, s: State, e: Event)
    requires cs > 0 && CrashSafe(names, cs, s) && EnvironmentHonest(names, s, e.op)
    ensures GuardExact(names, cs, s, e)
  {
    match e.op {
      case PutReq(_, _, _, _, _, _) =>
        AsPutHonest(names, cs, s, e.op, e.disk);
        PutEndsExactly(names, cs, s, AsPut(e.op, cs, e.disk), e.disk, e.clock);
        PutDisciplinedExactly(names, cs, s, AsPut(e.op, cs, e.disk), e.disk, e.clock);
      case DeleteReq(key, accepted) =>
        if accepted {
          DeleteEndsExactly(names, cs, s, key, e.disk);
        } else {
          DisciplinedIsSafe(names, cs, s, []);
        }
      case CopyReq(src, dest, created) =>
        if created.Some? {
          CopyGuardExactly(names, cs, s, src, dest, created.value);
        } else {
          DisciplinedIsSafe(names, cs, s, []);
        }
      case OutOfBand(_, _) => OutOfBandExactly(names, cs, s, e);
      case _ =>
        UnguardedDisciplined(names, cs, s, e);
        DisciplinedIsSafe(names, cs, s, LogOf(s, cs, e));
    }
  }

  /** Wherever the process dies, the state is crash-safe. */
  lemma StepSafe(names: Naming, cs: nat, s: State, e: Event)
    requires cs > 0 && CrashSafe(names, cs, s) && Legal(names, cs, s, e)
    ensures CrashSafe(names, cs, Step(s, cs, e))
  {
    var log := LogOf(s, cs, e);
    GuardedExactly(names, cs, s, e);
    PerformedPrefix(s, cs, e);
    if e.crashedAfter.Some? {
      assert CrashSafe(names, cs, Replay(s, log[..|Performed(s, cs, e)|]));
    }
  }

  lemma PerformedPrefix(s: State, cs: nat, e: Event)
    requires cs > 0
    ensures Performed(s, cs, e) <= LogOf(s, cs, e)
    ensures e.crashedAfter.None? ==> Performed(s, cs, e) == LogOf(s, cs, e)
  {
  }

  /** The window of a GET is a slice of the object. */
  lemma WindowIsSlice(up: map<string, Object>, key: string, range: Option<string>)
    requires key in up
    ensures var content := up[key].content;
            var w := Window(range, |content|);
            PlainBytes(up, key, range) == Slice(content, w.0, w.1)
  {
    var content := up[key].content;
    var w := Window(range, |content|);
    assert Slice(content, w.0, w.1) == content[w.0..w.1];
  }

  /** Any window, read after the refresh. */
  lemma RefreshedReadRight(names: Naming, cs: nat, s: State, key: string, disk: Disk, start: nat, end: nat)
    requires cs > 0 && CrashSafe(names, cs, s) && key in s.upstream
    ensures var content := s.upstream[key].content;
            var pieces := ReadPieces(Replay(s, RefreshLog(s, key, cs, disk)), key, cs, |content|, start, end);
            && Contents(pieces) <= Slice(content, start, end)
            && (Unbroken(pieces) ==> Contents(pieces) == Slice(content, start, end))
  {
    RefreshDisciplined(names, cs, s, key, disk);
    ReadPrefix(names, cs, Replay(s, RefreshLog(s, key, cs, disk)), key, s.upstream[key].content, start, end);
  }

  lemma StreamRight(names: Naming, cs: nat, s: State, key: string, range: Option<string>, disk: Disk)
    requires cs > 0 && CrashSafe(names, cs, s) && key in s.upstream
    ensures var bytes := PlainBytes(s.upstream, key, range);
            var pieces := StreamOf(s, key, range, cs, disk);
            && Contents(pieces) <= bytes
            && (Unbroken(pieces) ==> Contents(pieces) == bytes)
  {
    var w := Window(range, |s.upstream[key].content|);
    RefreshedReadRight(names, cs, s, key, disk, w.0, w.1);
    WindowIsSlice(s.upstream, key, range);
  }

  lemma BackedStreamFinishes(names: Naming, cs: nat, s: State, key: string, range: Option<string>, disk: Disk)
    requires cs > 0 && CrashSafe(names, cs, s) && key in s.upstream && Backed(s)
    ensures Unbroken(StreamOf(s, key, range, cs, disk))
  {
    var w := Window(range, |s.upstream[key].content|);
    RefreshedReadFinishes(names, cs, s, key, disk, w.0, w.1);
  }

  lemma RefreshedReadFinishes(names: Naming, cs: nat, s: State, key: string, disk: Disk, start: nat, end: nat)
    requires cs > 0 && CrashSafe(names, cs, s) && key in s.upstream && Backed(s)
    ensures Unbroken(ReadPieces(Replay(s, RefreshLog(s, key, cs, disk)), key, cs, |s.upstream[key].content|, start, end))
  {
    RefreshDisciplined(names, cs, s, key, disk);
    RefreshBacked(names, cs, s, key, disk);
    BackedReadFinishes(names, cs, Replay(s, RefreshLog(s, key, cs, disk)), key, start, end);
  }

  /** A GET's answer is upstream's, from any crash-safe state; it is complete if no registered file is missing. */
  lemma ReplyRight(names: Naming, cs: nat, s: State, e: Event)
    requires cs > 0 && CrashSafe(names, cs, s)
    ensures Answers(ReplyOf(s, cs, e), s.upstream, e)
    ensures Backed(s) && ReplyOf(s, cs, e).Found? ==> Unbroken(ReplyOf(s, cs, e).pieces)
  {
    if e.op.GetReq? && e.crashedAfter.None? && e.op.key in s.upstream {
      StreamRight(names, cs, s, e.op.key, e.op.range, e.disk);
      if Backed(s) {
        BackedStreamFinishes(names, cs, s, e.op.key, e.op.range, e.disk);
      }
    }
  }

  lemma RefreshBacked(names: Naming, cs: nat, s: State, key: string, disk: Disk)
    requires cs > 0 && key in s.upstream && CrashSafe(names, cs, s) && Backed(s)
    ensures Backed(Replay(s, RefreshLog(s, key, cs, disk)))
  {
    RefreshEffect(s, key, cs, disk);
    DropEffect(s, key, cs, disk);
  }
}

/** PUT: what each stage of the upload leaves behind, and what the whole operation achieves. */
module PutOperation {
  import opened Basics
  import opened ChunkKey
  import opened Blocks
  import opened CacheModel
  import opened Coherence
  import opened Operations

  /** The inputs of one PUT after its stream has been split. */
  datatype Put = Put(key: string, ingested: Ingested, declared: u64, contentType: Option<string>, upload: Upload)
  {
    predicate Succeeds() {
      ingested.ok && upload.Accepted?
    }

    function Log(s: State, cs: nat, disk: Disk, clock: Clock): Log
      requires cs > 0 && ingested.written < TWO_TO_THE_64
    {
      PutLog(s, key, cs, ingested, declared, contentType, upload, disk, clock)
    }
  }

  /**
   * What the environment owes a PUT: an object stored upstream is named by its ETag and length, and an accepted
   * upload stores the body, whose length was declared.
   */
  ghost predicate Honest(names: Naming, cs: nat, p: Put)
    requires cs > 0
  {
    && (p.upload.Effect().Some? ==> NamedBy(names, p.upload.Effect().value))
    && p.ingested.written < TWO_TO_THE_64
    && (p.Succeeds() ==>
          && p.upload.stored.content == p.ingested.accepted
          && p.declared == |p.ingested.accepted|
          && p.ingested.written == NumChunks(|p.ingested.accepted|, cs))
  }

  function Preparation(s: State, cs: nat, p: Put, disk: Disk): Log
    requires cs > 0 && p.ingested.written < TWO_TO_THE_64
  {
    DropLog(s, p.key, cs, disk)
    + WriteChunks(p.key, p.ingested.accepted, cs, p.ingested.written)
    + CommitLog(p.key, p.upload.Effect())
  }

  function Finish(cs: nat, p: Put, disk: Disk, clock: Clock): Log
    requires cs > 0 && p.ingested.written < TWO_TO_THE_64
  {
    FinishPut(p.key, cs, p.ingested, p.declared, p.contentType, p.upload, disk, clock)
  }

  // --- what a PUT does, in every state ---

  /** What a PUT has done when its upload has ended and nothing is registered or removed yet. */
  function Uploaded(s: State, p: Put, cs: nat, disk: Disk): State
    requires cs > 0 && p.ingested.written < TWO_TO_THE_64
  {
    var dropped := Replay(s, DropLog(s, p.key, cs, disk));
    dropped.(files := PutIndexed(dropped.files, p.key, p.ingested.written, BlockOf(p.ingested.accepted, cs)),
             upstream := match p.upload.Effect()
                         case None => dropped.upstream
                         case Some(o) => dropped.upstream[p.key := o])
  }

  /** The preparation of a PUT: old cache, chunk files, upload. */
  lemma PreparationReplayed(s: State, p: Put, cs: nat, disk: Disk)
    requires cs > 0 && p.ingested.written < TWO_TO_THE_64
    ensures Replay(s, Preparation(s, cs, p, disk)) == Uploaded(s, p, cs, disk)
  {
    var drop := DropLog(s, p.key, cs, disk);
    var write := WriteChunks(p.key, p.ingested.accepted, cs, p.ingested.written);
    var commit := CommitLog(p.key, p.upload.Effect());
    var s1 := Replay(s, drop);
    ReplayConcat(s, drop, write);
    ReplayConcat(s, drop + write, commit);
    WriteChunksEffect(s1, p.key, p.ingested.accepted, cs, p.ingested.written);
    CommitReplayed(Replay(s1, write), p.key, p.upload.Effect());
  }

  /** A PUT up to the end of its upload, and then the rest of it. */
  lemma PutInSteps(s: State, p: Put, cs: nat, disk: Disk, clock: Clock)
    requires cs > 0 && p.ingested.written < TWO_TO_THE_64
    ensures p.Log(s, cs, disk, clock) == Preparation(s, cs, p, disk) + Finish(cs, p, disk, clock)
    ensures Replay(s, p.Log(s, cs, disk, clock)) == Finished(Uploaded(s, p, cs, disk), p, cs, disk, clock)
  {
    PreparationReplayed(s, p, cs, disk);
    ReplayConcat(s, Preparation(s, cs, p, disk), Finish(cs, p, disk, clock));
    FinishReplayed(Uploaded(s, p, cs, disk), p, cs, disk, clock);
  }

  lemma CommitReplayed(s: State, key: string, effect: Option<Object>)
    ensures Replay(s, CommitLog(key, effect))
            == s.(upstream := match effect case None => s.upstream case Some(o) => s.upstream[key := o])
  {
    if effect.Some? {
      ReplayOne(s, [], Commit(key, effect.value));
      assert [] + [Commit(key, effect.value)] == CommitLog(key, effect);
    }
  }

  /** Registration, nothing, or cleanup. */
  function Finished(u: State, p: Put, cs: nat, disk: Disk, clock: Clock): State
    requires cs > 0 && p.ingested.written < TWO_TO_THE_64
  {
    var n := p.ingested.written;
    if p.Succeeds() then
      u.(entries := PutIndexed(u.entries, p.key, n, EntryOf(|p.ingested.accepted|, cs, clock)),
         objects := u.objects[p.key := PutRecord(p.declared, p.contentType, p.upload.stored, clock(n))])
    else if p.ingested.ok then u
    else u.(files := WithoutFiles(u.files, p.key, n + 1, disk))
  }

  lemma FinishReplayed(u: State, p: Put, cs: nat, disk: Disk, clock: Clock)
    requires cs > 0 && p.ingested.written < TWO_TO_THE_64
    ensures Replay(u, FinishPut(p.key, cs, p.ingested, p.declared, p.contentType, p.upload, disk, clock))
            == Finished(u, p, cs, disk, clock)
  {
    var n := p.ingested.written;
    if p.Succeeds() {
      var register := RegisterChunks(p.key, |p.ingested.accepted|, cs, n, clock);
      RegisterEffect(u, p.key, |p.ingested.accepted|, cs, n, clock);
      ReplayOne(u, register, PutObject(p.key, PutRecord(p.declared, p.contentType, p.upload.stored, clock(n))));
    } else if !p.ingested.ok {
      DeleteFilesEffect(u, p.key, n + 1, disk);
    }
  }

  function FileAt(files: map<ChunkId, seq<byte>>, id: ChunkId): Option<seq<byte>> {
    if id in files then Some(files[id]) else None
  }

  /** The file of a chunk of the object when the upload has ended, if the old cache had no record to be dropped by. */
  function FileWritten(s: State, cs: nat, p: Put, id: ChunkId): Option<seq<byte>> {
    if id.idx < p.ingested.written then Some(Block(p.ingested.accepted, cs, id.idx)) else FileAt(s.files, id)
  }

  /** The chunk was registered before the PUT and has no record by which the PUT could find it. */
  predicate IsLeftover(s: State, key: string, id: ChunkId) {
    id in s.entries && id.key == key && key !in s.objects
  }

  /** The state when the chunk files are written and the upload has not ended. */
  function Written(s: State, p: Put, cs: nat, disk: Disk): State
    requires cs > 0 && p.ingested.written < TWO_TO_THE_64
  {
    Replay(Replay(s, DropLog(s, p.key, cs, disk)), WriteChunks(p.key, p.ingested.accepted, cs, p.ingested.written))
  }

  /** What is then known about the object: its leftovers, and the chunk files in place. */
  ghost predicate LeftoversAndFiles(s: State, u: State, cs: nat, p: Put)
    requires cs > 0
  {
    && p.key !in u.objects
    && (forall id :: id in u.entries && id.key == p.key <==> IsLeftover(s, p.key, id))
    && (forall id :: IsLeftover(s, p.key, id) ==>
          u.entries[id] == s.entries[id] && FileAt(u.files, id) == FileWritten(s, cs, p, id))
    && (forall id: ChunkId :: id.key == p.key && id.idx < p.ingested.written ==>
          id in u.files && u.files[id] == Block(p.ingested.accepted, cs, id.idx))
  }

  lemma DropElsewhere(s: State, key: string, cs: nat, disk: Disk)
    requires cs > 0
    ensures SameElsewhere(s, Replay(s, DropLog(s, key, cs, disk)), key)
  {
    DropEffect(s, key, cs, disk);
  }

  /** A chunk of the object after the drop: still registered, with the same file, exactly when it is a leftover. */
  lemma DropAt(names: Naming, cs: nat, s: State, id: ChunkId, disk: Disk)
    requires cs > 0 && CrashSafe(names, cs, s)
    ensures var t := Replay(s, DropLog(s, id.key, cs, disk));
            && (id in t.entries <==> IsLeftover(s, id.key, id))
            && (id in t.entries ==> t.entries[id] == s.entries[id] && FileAt(t.files, id) == FileAt(s.files, id))
  {
    DropEffect(s, id.key, cs, disk);
    DropComplete(names, cs, s, id.key, disk);
  }

  /** The chunk files of the upload, over whatever was there. */
  lemma WriteAt(t: State, p: Put, cs: nat, id: ChunkId)
    requires cs > 0 && p.ingested.written < TWO_TO_THE_64 && id.key == p.key
    ensures var u := Replay(t, WriteChunks(p.key, p.ingested.accepted, cs, p.ingested.written));
            FileAt(u.files, id) == if id.idx < p.ingested.written then Some(Block(p.ingested.accepted, cs, id.idx))
                                   else FileAt(t.files, id)
  {
    WriteChunksEffect(t, p.key, p.ingested.accepted, cs, p.ingested.written);
    PutIndexedAt(t.files, p.key, p.ingested.written, BlockOf(p.ingested.accepted, cs));
  }

  lemma WriteElsewhere(s: State, t: State, p: Put, cs: nat)
    requires cs > 0 && p.ingested.written < TWO_TO_THE_64 && SameElsewhere(s, t, p.key)
    ensures SameElsewhere(s, Replay(t, WriteChunks(p.key, p.ingested.accepted, cs, p.ingested.written)), p.key)
  {
    WriteChunksEffect(t, p.key, p.ingested.accepted, cs, p.ingested.written);
    PutIndexedAt(t.files, p.key, p.ingested.written, BlockOf(p.ingested.accepted, cs));
    var files := PutIndexed(t.files, p.key, p.ingested.written, BlockOf(p.ingested.accepted, cs));
    AgreeChunksTrans(s.files, t.files, files, p.key);
  }

  lemma WrittenEffect(names: Naming, cs: nat, s: State, p: Put, disk: Disk)
    requires cs > 0 && CrashSafe(names, cs, s) && p.ingested.written < TWO_TO_THE_64
    ensures var u := Written(s, p, cs, disk);
            && LeftoversAndFiles(s, u, cs, p) && SameElsewhere(s, u, p.key)
            && u.upstream == s.upstream && u.objects == s.objects - {p.key}
  {
    var t, u := Replay(s, DropLog(s, p.key, cs, disk)), Written(s, p, cs, disk);
    DropEffect(s, p.key, cs, disk);
    DropElsewhere(s, p.key, cs, disk);
    WriteElsewhere(s, t, p, cs);
    WriteChunksElse(t, p.key, p.ingested.accepted, cs, p.ingested.written);
    forall id: ChunkId | id.key == p.key
      ensures id in u.entries <==> IsLeftover(s, p.key, id)
      ensures IsLeftover(s, p.key, id) ==> u.entries[id] == s.entries[id] && FileAt(u.files, id) == FileWritten(s, cs, p, id)
      ensures id.idx < p.ingested.written ==> id in u.files && u.files[id] == Block(p.ingested.accepted, cs, id.idx)
    {
      DropAt(names, cs, s, id, disk);
      WriteAt(t, p, cs, id);
    }
  }

  /** Before registration begins: no record, only leftovers registered, the chunk files in place, upstream decided. */
  lemma PreparationEffect(names: Naming, cs: nat, s: State, p: Put, disk: Disk)
    requires cs > 0 && CrashSafe(names, cs, s) && p.ingested.written < TWO_TO_THE_64
    ensures var u := Uploaded(s, p, cs, disk);
            && Replay(s, Preparation(s, cs, p, disk)) == u
            && LeftoversAndFiles(s, u, cs, p) && SameElsewhere(s, u, p.key)
            && u.objects == s.objects - {p.key}
            && u.upstream == (match p.upload.Effect() case None => s.upstream case Some(o) => s.upstream[p.key := o])
            && (NoEntries(u, p.key) <==> Recorded(s, p.key))
  {
    PreparationReplayed(s, p, cs, disk);
    WrittenEffect(names, cs, s, p, disk);
    WriteChunksEffect(Replay(s, DropLog(s, p.key, cs, disk)), p.key, p.ingested.accepted, cs, p.ingested.written);
    var u := Uploaded(s, p, cs, disk);
    assert u == Written(s, p, cs, disk).(upstream := u.upstream);
  }

  // --- which crash points are safe ---

  /** A registered chunk and its file, if it has one, are a chunk of `o`. */
  predicate Fits(cs: nat, o: Object, id: ChunkId, entry: ChunkMeta, file: Option<seq<byte>>)
    requires cs > 0
  {
    && id.idx < NumChunks(|o.content|, cs)
    && entry.status.Complete?
    && entry.size == Truncate32(BlockLen(|o.content|, cs, id.idx))
    && (file.Some? ==> file.value == Block(o.content, cs, id.idx))
  }

  lemma FitsExactly(names: Naming, cs: nat, o: Object, id: ChunkId, entry: ChunkMeta, files: map<ChunkId, seq<byte>>)
    requires cs > 0 && NamedBy(names, o)
    ensures EntryRight(names, cs, o.Meta(), id, entry, files) <==> Fits(cs, o, id, entry, FileAt(files, id))
  {
    BlockSizes(o.content, cs, id.idx);
  }

  lemma FileFitsExactly(names: Naming, cs: nat, o: Object, idx: nat, data: seq<byte>)
    requires cs > 0 && NamedBy(names, o)
    ensures FileRight(names, cs, o.Meta(), idx, data) <==> data == Block(o.content, cs, idx)
  {
    BlockSizes(o.content, cs, idx);
  }

  /** The leftovers of `key` fit `o` as they are. */
  predicate LeftoversFit(cs: nat, s: State, key: string, o: Object)
    requires cs > 0
  {
    forall id :: id in s.entries && IsLeftover(s, key, id) ==> Fits(cs, o, id, s.entries[id], FileAt(s.files, id))
  }

  /** A commit is safe exactly when the object has a record or its leftovers fit what is committed. */
  lemma CommitExactly(names: Naming, cs: nat, s: State, key: string, o: Object)
    requires cs > 0 && CrashSafe(names, cs, s) && NamedBy(names, o)
    ensures CrashSafe(names, cs, Apply(s, Commit(key, o))) <==> LeftoversFit(cs, s, key, o)
    ensures Allowed(names, cs, s, Commit(key, o)) <==> LeftoversFit(cs, s, key, o)
  {
    AllowedExactly(names, cs, s, Commit(key, o));
    forall id | id in s.entries
      ensures EntryRight(names, cs, o.Meta(), id, s.entries[id], s.files)
              <==> Fits(cs, o, id, s.entries[id], FileAt(s.files, id))
    {
      FitsExactly(names, cs, o, id, s.entries[id], s.files);
    }
  }

  /** An object may vanish upstream exactly when it has a record or nothing is left over. */
  lemma RemoveExactly(names: Naming, cs: nat, s: State, key: string)
    requires cs > 0 && CrashSafe(names, cs, s)
    ensures CrashSafe(names, cs, Apply(s, Remove(key))) <==> Recorded(s, key)
  {
    AllowedExactly(names, cs, s, Remove(key));
  }

  /**
   * A leftover survives every write of the PUT: its file is only overwritten with the bytes upstream holds, and it
   * fits what the upload stores.
   */
  predicate SurvivesThroughout(cs: nat, s: State, p: Put, id: ChunkId)
    requires cs > 0 && id in s.entries
  {
    && (id.idx < p.ingested.written ==>
          && p.key in s.upstream
          && Block(p.ingested.accepted, cs, id.idx) == Block(s.upstream[p.key].content, cs, id.idx))
    && (p.upload.Effect().Some? ==>
          Fits(cs, p.upload.Effect().value, id, s.entries[id], FileWritten(s, cs, p, id)))
  }

  predicate PutSafeThroughout(cs: nat, s: State, p: Put)
    requires cs > 0
  {
    forall id :: id in s.entries && IsLeftover(s, p.key, id) ==> SurvivesThroughout(cs, s, p, id)
  }

  lemma RecordedHasNoLeftover(s: State, key: string)
    ensures Recorded(s, key) <==> forall id :: id in s.entries ==> !IsLeftover(s, key, id)
  {
  }

  /** Writing the chunk files is safe exactly when every leftover they overwrite gets upstream's bytes. */
  lemma OverwritingExactly(names: Naming, cs: nat, s: State, p: Put, disk: Disk)
    requires cs > 0 && CrashSafe(names, cs, s) && p.ingested.written < TWO_TO_THE_64
    ensures var s1 := Replay(s, DropLog(s, p.key, cs, disk));
            OverwritesRight(names, cs, s1, p.key, p.ingested.accepted, p.ingested.written)
            <==> forall id :: id in s.entries && IsLeftover(s, p.key, id) && id.idx < p.ingested.written ==>
                   && p.key in s.upstream
                   && Block(p.ingested.accepted, cs, id.idx) == Block(s.upstream[p.key].content, cs, id.idx)
  {
    DropComplete(names, cs, s, p.key, disk);
    DropEffect(s, p.key, cs, disk);
    var s1 := Replay(s, DropLog(s, p.key, cs, disk));
    forall id | id in s.entries && IsLeftover(s, p.key, id)
      ensures OverwriteRight(names, cs, s1, p.ingested.accepted, id) <==>
                && p.key in s.upstream
                && Block(p.ingested.accepted, cs, id.idx) == Block(s.upstream[p.key].content, cs, id.idx)
    {
      if p.key in s.upstream {
        FileFitsExactly(names, cs, s.upstream[p.key], id.idx, Block(p.ingested.accepted, cs, id.idx));
      }
    }
  }

  /** Whether the leftovers are right for an object, once the chunk files are written. */
  lemma LeftoversFitExactly(names: Naming, cs: nat, s: State, u: State, p: Put, o: Object)
    requires cs > 0 && LeftoversAndFiles(s, u, cs, p) && NamedBy(names, o)
    ensures EntriesFit(names, cs, u, p.key, o.Meta())
            <==> forall id :: id in s.entries && IsLeftover(s, p.key, id) ==>
                   Fits(cs, o, id, s.entries[id], FileWritten(s, cs, p, id))
  {
    forall id | id in s.entries && IsLeftover(s, p.key, id)
      ensures id in u.entries
      ensures EntryRight(names, cs, o.Meta(), id, u.entries[id], u.files)
              <==> Fits(cs, o, id, s.entries[id], FileWritten(s, cs, p, id))
    {
      FitsExactly(names, cs, o, id, u.entries[id], u.files);
    }
  }

  /** The commit of an upload is safe exactly when the leftovers, as overwritten, fit what is stored. */
  lemma UploadExactly(names: Naming, cs: nat, s: State, p: Put, disk: Disk)
    requires cs > 0 && CrashSafe(names, cs, s) && Honest(names, cs, p)
    ensures Disciplined(names, cs, Written(s, p, cs, disk), CommitLog(p.key, p.upload.Effect()))
            <==> (p.upload.Effect().Some? ==>
                    forall id :: id in s.entries && IsLeftover(s, p.key, id) ==>
                      Fits(cs, p.upload.Effect().value, id, s.entries[id], FileWritten(s, cs, p, id)))
  {
    var u := Written(s, p, cs, disk);
    WrittenEffect(names, cs, s, p, disk);
    if p.upload.Effect().Some? {
      var o := p.upload.Effect().value;
      DisciplinedSnoc(names, cs, u, [], Commit(p.key, o));
      assert [] + [Commit(p.key, o)] == CommitLog(p.key, p.upload.Effect());
      LeftoversFitExactly(names, cs, s, u, p, o);
    }
  }

  /** The preparation can be cut anywhere exactly when every leftover survives it. */
  lemma PreparationExactly(names: Naming, cs: nat, s: State, p: Put, disk: Disk)
    requires cs > 0 && CrashSafe(names, cs, s) && Honest(names, cs, p)
    ensures Disciplined(names, cs, s, Preparation(s, cs, p, disk)) <==> PutSafeThroughout(cs, s, p)
  {
    var drop := DropLog(s, p.key, cs, disk);
    var write := WriteChunks(p.key, p.ingested.accepted, cs, p.ingested.written);
    var commit := CommitLog(p.key, p.upload.Effect());
    DropComplete(names, cs, s, p.key, disk);
    DisciplinedParts(names, cs, s, drop, write);
    DisciplinedParts(names, cs, s, drop + write, commit);
    ReplayConcat(s, drop, write);
    WriteChunksExactly(names, cs, Replay(s, drop), p.key, p.ingested.accepted, p.ingested.written);
    OverwritingExactly(names, cs, s, p, disk);
    UploadExactly(names, cs, s, p, disk);
  }

  // --- registration and cleanup ---

  /** A successful PUT: the record, the chunks of the body as entries, and their files. */
  ghost predicate Cached(cs: nat, t: State, key: string, record: ObjectMeta, content: seq<byte>, clock: Clock)
    requires cs > 0
  {
    && key in t.objects && t.objects[key] == record
    && (forall id: ChunkId :: id.key == key && id.idx < NumChunks(|content|, cs) ==>
          && id in t.entries
          && t.entries[id] == ChunkMeta(Truncate32(BlockLen(|content|, cs, id.idx)), clock(id.idx), Complete)
          && id in t.files && t.files[id] == Block(content, cs, id.idx))
  }

  /** Registration: the chunks of the body become entries, the record comes last; the rest is as before. */
  lemma RegistrationEffect(names: Naming, cs: nat, u: State, p: Put, disk: Disk, clock: Clock)
    requires cs > 0 && Honest(names, cs, p) && p.Succeeds()
    requires forall id: ChunkId :: id.key == p.key && id.idx < p.ingested.written ==>
               id in u.files && u.files[id] == Block(p.ingested.accepted, cs, id.idx)
    ensures var record := PutRecord(p.declared, p.contentType, p.upload.stored, clock(p.ingested.written));
            var t := Finished(u, p, cs, disk, clock);
            && Cached(cs, t, p.key, record, p.ingested.accepted, clock)
            && t == State(u.upstream, u.objects[p.key := record], t.entries, u.files)
            && (forall id: ChunkId :: !(id.key == p.key && id.idx < p.ingested.written) ==>
                  (id in t.entries <==> id in u.entries) && (id in u.entries ==> t.entries[id] == u.entries[id]))
  {
    PutIndexedAt(u.entries, p.key, p.ingested.written, EntryOf(|p.ingested.accepted|, cs, clock));
  }

  /** A chunk of the stored object is right under the record written last, even if that record names nothing. */
  lemma RecordRight(names: Naming, cs: nat, p: Put, id: ChunkId, entry: ChunkMeta, files: map<ChunkId, seq<byte>>,
                    record: ObjectMeta)
    requires cs > 0 && Honest(names, cs, p) && p.Succeeds()
    requires record.contentLength == p.declared && record.etag == Some(p.upload.stored.etag.GetOr(""))
    requires Fits(cs, p.upload.stored, id, entry, FileAt(files, id))
    ensures EntryRight(names, cs, record, id, entry, files)
  {
    BlockSizes(p.ingested.accepted, cs, id.idx);
  }

  /** After a safe preparation, registration is safe at every point. */
  lemma RegistrationDisciplined(names: Naming, cs: nat, u: State, p: Put, disk: Disk, clock: Clock)
    requires cs > 0 && Honest(names, cs, p) && p.Succeeds() && CrashSafe(names, cs, u)
    requires p.key !in u.objects && p.key in u.upstream && u.upstream[p.key] == p.upload.stored
    requires forall id: ChunkId :: id.key == p.key && id.idx < p.ingested.written ==>
               id in u.files && u.files[id] == Block(p.ingested.accepted, cs, id.idx)
    ensures Disciplined(names, cs, u, Finish(cs, p, disk, clock))
  {
    var content, n := p.ingested.accepted, p.ingested.written;
    var record := PutRecord(p.declared, p.contentType, p.upload.stored, clock(n));
    var register := RegisterChunks(p.key, |content|, cs, n, clock);
    RegisterDisciplined(names, cs, u, p.key, n, clock);
    DisciplineSafe(names, cs, u, register, |register|);
    assert register[..|register|] == register;
    var v := Replay(u, register);
    RegisterEffect(u, p.key, |content|, cs, n, clock);
    forall id | id in v.entries && id.key == p.key
      ensures EntryRight(names, cs, record, id, v.entries[id], v.files)
    {
      FitsExactly(names, cs, p.upload.stored, id, v.entries[id], v.files);
      RecordRight(names, cs, p, id, v.entries[id], v.files, record);
    }
    DisciplinedOne(names, cs, u, register, PutObject(p.key, record));
  }

  /** After a failed PUT the files it wrote are removed, or, if only its upload failed, left alone. */
  lemma FailureDisciplined(names: Naming, cs: nat, u: State, p: Put, disk: Disk, clock: Clock)
    requires cs > 0 && Honest(names, cs, p) && !p.Succeeds()
    ensures Disciplined(names, cs, u, Finish(cs, p, disk, clock))
  {
    if p.ingested.ok {
      assert Finish(cs, p, disk, clock) == [];
    } else {
      DeleteFilesDisciplined(names, cs, u, p.key, p.ingested.written + 1, disk);
    }
  }

  /**
   * A PUT is safe at every crash point exactly when every chunk an earlier crash left registered survives it. With a
   * record, or with nothing left over, that is always so.
   */
  lemma PutDisciplinedExactly(names: Naming, cs: nat, s: State, p: Put, disk: Disk, clock: Clock)
    requires cs > 0 && CrashSafe(names, cs, s) && Honest(names, cs, p)
    ensures Disciplined(names, cs, s, p.Log(s, cs, disk, clock)) <==> PutSafeThroughout(cs, s, p)
    ensures SafeThroughout(names, cs, s, p.Log(s, cs, disk, clock)) <==> PutSafeThroughout(cs, s, p)
  {
    var prep, finish := Preparation(s, cs, p, disk), Finish(cs, p, disk, clock);
    PutInSteps(s, p, cs, disk, clock);
    DisciplineExactly(names, cs, s, p.Log(s, cs, disk, clock));
    DisciplinedParts(names, cs, s, prep, finish);
    PreparationExactly(names, cs, s, p, disk);
    PreparationEffect(names, cs, s, p, disk);
    if PutSafeThroughout(cs, s, p) {
      DisciplineSafe(names, cs, s, prep, |prep|);
      assert prep[..|prep|] == prep;
      if p.Succeeds() {
        RegistrationDisciplined(names, cs, Uploaded(s, p, cs, disk), p, disk, clock);
      } else {
        FailureDisciplined(names, cs, Uploaded(s, p, cs, disk), p, disk, clock);
      }
    }
  }

  /** Between operations nothing is left over, so every write of a PUT is allowed at its turn. */
  lemma PutDisciplined(names: Naming, cs: nat, s: State, p: Put, disk: Disk, clock: Clock)
    requires cs > 0 && CrashSafe(names, cs, s) && Recorded(s, p.key) && Honest(names, cs, p)
    ensures Disciplined(names, cs, s, p.Log(s, cs, disk, clock))
  {
    RecordedHasNoLeftover(s, p.key);
    PutDisciplinedExactly(names, cs, s, p, disk, clock);
  }

  // --- what the whole operation achieves ---

  /**
   * What a PUT does. On success the body is cached chunk by chunk under the stored version, and beyond it only what
   * had no record is still registered; on failure nothing else is registered and there is no record. Upstream changes
   * only by what the upload stored.
   */
  lemma PutOutcome(names: Naming, cs: nat, s: State, p: Put, disk: Disk, clock: Clock)
    requires cs > 0 && CrashSafe(names, cs, s) && Honest(names, cs, p)
    ensures var t := Replay(s, p.Log(s, cs, disk, clock));
            && SameElsewhere(s, t, p.key)
            && t.upstream == (match p.upload.Effect() case None => s.upstream case Some(o) => s.upstream[p.key := o])
            && (p.Succeeds() ==>
                  Cached(cs, t, p.key, PutRecord(p.declared, p.contentType, p.upload.stored, clock(p.ingested.written)),
                         p.ingested.accepted, clock))
            && (!p.Succeeds() ==> p.key !in t.objects)
            && (forall id: ChunkId :: id.key == p.key && (p.Succeeds() ==> id.idx >= p.ingested.written) ==>
                  && (id in t.entries <==> IsLeftover(s, p.key, id))
                  && (id in t.entries ==> t.entries[id] == s.entries[id]))
  {
    PutInSteps(s, p, cs, disk, clock);
    PreparationEffect(names, cs, s, p, disk);
    if p.Succeeds() {
      RegistrationEffect(names, cs, Uploaded(s, p, cs, disk), p, disk, clock);
    }
  }

  /** The object upstream holds when the PUT has ended. */
  function StoredAfter(s: State, p: Put): Option<Object> {
    match p.upload.Effect()
    case Some(o) => Some(o)
    case None => if p.key in s.upstream then Some(s.upstream[p.key]) else None
  }

  /** The file of a leftover when a failed PUT has ended. */
  function FileAfterFailure(s: State, cs: nat, p: Put, disk: Disk, id: ChunkId): Option<seq<byte>> {
    if !p.ingested.ok && id.idx <= p.ingested.written && id !in disk.undeletable then None else FileWritten(s, cs, p, id)
  }

  /**
   * A leftover does no harm once the PUT has ended: a successful PUT registers its index anew; after a failed one its
   * file is gone or holds the bytes of what upstream now stores, and its size agrees.
   */
  predicate EndsWell(cs: nat, s: State, p: Put, disk: Disk, id: ChunkId)
    requires cs > 0 && id in s.entries
  {
    if p.Succeeds() then id.idx < p.ingested.written
    else
      && StoredAfter(s, p).Some?
      && Fits(cs, StoredAfter(s, p).value, id, s.entries[id], FileAfterFailure(s, cs, p, disk, id))
  }

  predicate PutSafeAtEnd(cs: nat, s: State, p: Put, disk: Disk)
    requires cs > 0
  {
    forall id :: id in s.entries && IsLeftover(s, p.key, id) ==> EndsWell(cs, s, p, disk, id)
  }

  /** One object's chunks are right. */
  ghost predicate KeySafe(names: Naming, cs: nat, t: State, key: string)
    requires cs > 0
  {
    && (key in t.upstream ==> NamedBy(names, t.upstream[key]))
    && forall id :: id in t.entries && id.key == key ==>
         Governing(t, key).Some? && EntryRight(names, cs, Governing(t, key).value, id, t.entries[id], t.files)
  }

  /** An operation on one object is safe exactly when it leaves that object's chunks right. */
  lemma SafeIfKeySafe(names: Naming, cs: nat, s: State, t: State, key: string)
    requires cs > 0 && CrashSafe(names, cs, s) && SameElsewhere(s, t, key)
    ensures CrashSafe(names, cs, t) <==> KeySafe(names, cs, t, key)
  {
    forall id | id in t.entries && id.key != key
      ensures Governing(t, id.key).Some? && EntryRight(names, cs, Governing(t, id.key).value, id, t.entries[id], t.files)
    {
      assert id in s.entries;
      assert EntryRight(names, cs, Governing(s, id.key).value, id, s.entries[id], s.files);
    }
    forall k | k in t.upstream && k != key
      ensures NamedBy(names, t.upstream[k])
    {
      assert k in s.upstream;
    }
  }

  /** A successful PUT ends with right chunks exactly when nothing is left over beyond its body. */
  lemma SuccessEnds(names: Naming, cs: nat, s: State, p: Put, disk: Disk, clock: Clock)
    requires cs > 0 && CrashSafe(names, cs, s) && Honest(names, cs, p) && p.Succeeds()
    ensures KeySafe(names, cs, Replay(s, p.Log(s, cs, disk, clock)), p.key) <==> PutSafeAtEnd(cs, s, p, disk)
  {
    PutOutcome(names, cs, s, p, disk, clock);
    var t := Replay(s, p.Log(s, cs, disk, clock));
    var record := t.objects[p.key];
    forall id | id in t.entries && id.key == p.key
      ensures EntryRight(names, cs, record, id, t.entries[id], t.files) <==> id.idx < p.ingested.written
    {
      if id.idx < p.ingested.written {
        RecordRight(names, cs, p, id, t.entries[id], t.files, record);
      }
    }
    if PutSafeAtEnd(cs, s, p, disk) {
      assert forall id :: id in t.entries && id.key == p.key && id.idx >= p.ingested.written ==> IsLeftover(s, p.key, id);
    }
  }

  /** A failed PUT's leftovers and their files. */
  lemma FailureEffect(names: Naming, cs: nat, s: State, p: Put, disk: Disk, clock: Clock)
    requires cs > 0 && CrashSafe(names, cs, s) && Honest(names, cs, p) && !p.Succeeds()
    ensures var t := Replay(s, p.Log(s, cs, disk, clock));
            && (forall id :: id in t.entries && id.key == p.key <==> IsLeftover(s, p.key, id))
            && (forall id :: IsLeftover(s, p.key, id) ==>
                  t.entries[id] == s.entries[id] && FileAt(t.files, id) == FileAfterFailure(s, cs, p, disk, id))
  {
    PutInSteps(s, p, cs, disk, clock);
    PreparationEffect(names, cs, s, p, disk);
    CleanupEffect(s, Uploaded(s, p, cs, disk), p, cs, disk, clock);
  }

  lemma CleanupEffect(s: State, u: State, p: Put, cs: nat, disk: Disk, clock: Clock)
    requires cs > 0 && LeftoversAndFiles(s, u, cs, p) && p.ingested.written < TWO_TO_THE_64 && !p.Succeeds()
    ensures var t := Finished(u, p, cs, disk, clock);
            && (forall id :: id in t.entries && id.key == p.key <==> IsLeftover(s, p.key, id))
            && (forall id :: IsLeftover(s, p.key, id) ==>
                  t.entries[id] == s.entries[id] && FileAt(t.files, id) == FileAfterFailure(s, cs, p, disk, id))
  {
    var t := Finished(u, p, cs, disk, clock);
    assert t.entries == u.entries;
    forall id | IsLeftover(s, p.key, id)
      ensures FileAt(t.files, id) == FileAfterFailure(s, cs, p, disk, id)
    {
      assert FileAt(u.files, id) == FileWritten(s, cs, p, id);
    }
  }

  lemma FailureEnds(names: Naming, cs: nat, s: State, p: Put, disk: Disk, clock: Clock)
    requires cs > 0 && CrashSafe(names, cs, s) && Honest(names, cs, p) && !p.Succeeds()
    ensures KeySafe(names, cs, Replay(s, p.Log(s, cs, disk, clock)), p.key) <==> PutSafeAtEnd(cs, s, p, disk)
  {
    PutOutcome(names, cs, s, p, disk, clock);
    FailureEffect(names, cs, s, p, disk, clock);
    var t := Replay(s, p.Log(s, cs, disk, clock));
    if StoredAfter(s, p).Some? {
      var o := StoredAfter(s, p).value;
      assert NamedBy(names, o);
      forall id | id in t.entries && id.key == p.key
        ensures EntryRight(names, cs, o.Meta(), id, t.entries[id], t.files) <==> EndsWell(cs, s, p, disk, id)
      {
        FitsExactly(names, cs, o, id, t.entries[id], t.files);
      }
    }
  }

  /**
   * A PUT that runs to its end leaves every chunk right exactly when its leftovers end well: none beyond the body of
   * a successful PUT, none overwritten with other bytes by a failed one.
   */
  lemma PutEndsExactly(names: Naming, cs: nat, s: State, p: Put, disk: Disk, clock: Clock)
    requires cs > 0 && CrashSafe(names, cs, s) && Honest(names, cs, p)
    ensures CrashSafe(names, cs, Replay(s, p.Log(s, cs, disk, clock))) <==> PutSafeAtEnd(cs, s, p, disk)
  {
    PutOutcome(names, cs, s, p, disk, clock);
    SafeIfKeySafe(names, cs, s, Replay(s, p.Log(s, cs, disk, clock)), p.key);
    if p.Succeeds() {
      SuccessEnds(names, cs, s, p, disk, clock);
    } else {
      FailureEnds(names, cs, s, p, disk, clock);
    }
  }

  /**
   * Cleanup after a PUT whose stream or chunk write failed, with a disk that unlinks: no file of the object is left
   * exactly when every file it had lay below the recorded chunk count or among the chunks this PUT visited. A file
   * beyond both, left by an earlier PUT whose upload failed, survives.
   */
  lemma FailedPutFiles(s: State, cs: nat, p: Put, disk: Disk, clock: Clock)
    requires cs > 0 && p.ingested.written < TWO_TO_THE_64 && !p.ingested.ok && disk.undeletable == {}
    ensures (forall id :: id in Replay(s, p.Log(s, cs, disk, clock)).files ==> id.key != p.key)
            <==> (forall id :: id in s.files && id.key == p.key ==>
                    id.idx < DropCount(s, p.key, cs) || id.idx <= p.ingested.written)
  {
    PutInSteps(s, p, cs, disk, clock);
    DropEffect(s, p.key, cs, disk);
    var s1 := Replay(s, DropLog(s, p.key, cs, disk));
    PutIndexedAt(s1.files, p.key, p.ingested.written, BlockOf(p.ingested.accepted, cs));
    var t := Replay(s, p.Log(s, cs, disk, clock));
    forall id: ChunkId | id.key == p.key
      ensures id in t.files <==>
                id in s.files && id.idx >= DropCount(s, p.key, cs) && id.idx > p.ingested.written
    {
    }
  }
}

/** What each operation's log does to the state, and that each log obeys the write discipline. */
module Operations {
  import opened Basics
  import opened ChunkKey
  import opened Blocks
  import opened CacheModel
  import opened Coherence

  // --- dropping ---

  /** The chunks of `key` below `n` are gone; the rest is as before. */
  function WithoutChunks<V>(m: map<ChunkId, V>, key: string, n: nat): map<ChunkId, V> {
    map id | id in m && !(id.key == key && id.idx < n) :: m[id]
  }

  /** Like `WithoutChunks`, except that a file the disk refuses to unlink stays. */
  function WithoutFiles(m: map<ChunkId, seq<byte>>, key: string, n: nat, disk: Disk): map<ChunkId, seq<byte>> {
    map id | id in m && !(id.key == key && id.idx < n && id !in disk.undeletable) :: m[id]
  }

  lemma WithoutChunksStep<V>(m: map<ChunkId, V>, key: string, n: nat)
    requires n <= TWO_TO_THE_64
    ensures WithoutChunks(m, key, 0) == m
    ensures n > 0 ==> WithoutChunks(m, key, n) == WithoutChunks(m, key, n - 1) - {ChunkId(key, n - 1)}
  {
  }

  lemma WithoutFilesStep(m: map<ChunkId, seq<byte>>, key: string, n: nat, disk: Disk)
    requires n <= TWO_TO_THE_64
    ensures WithoutFiles(m, key, 0, disk) == m
    ensures n > 0 ==>
              var id, rest := ChunkId(key, n - 1), WithoutFiles(m, key, n - 1, disk);
              WithoutFiles(m, key, n, disk) == if id in disk.undeletable then rest else rest - {id}
  {
  }

  lemma DeleteChunkFileEffect(s: State, log: Log, id: ChunkId, disk: Disk)
    ensures var t := Replay(s, log);
            Replay(s, log + DeleteChunkFile(id, disk))
            == t.(files := if id in disk.undeletable then t.files else t.files - {id})
  {
    if id in disk.undeletable {
      assert log + DeleteChunkFile(id, disk) == log;
    } else {
      ReplayOne(s, log, DeleteFile(id));
    }
  }

  lemma DropOneEffect(s: State, log: Log, id: ChunkId, disk: Disk)
    ensures var t := Replay(s, log);
            Replay(s, log + DeleteChunkFile(id, disk) + [DeleteEntry(id)])
            == t.(files := if id in disk.undeletable then t.files else t.files - {id}, entries := t.entries - {id})
  {
    DeleteChunkFileEffect(s, log, id, disk);
    ReplayOne(s, log + DeleteChunkFile(id, disk), DeleteEntry(id));
  }

  lemma {:induction false} DropChunksEffect(s: State, key: string, n: nat, disk: Disk)
    requires n <= TWO_TO_THE_64
    ensures Replay(s, DropChunks(key, n, disk))
            == s.(entries := WithoutChunks(s.entries, key, n), files := WithoutFiles(s.files, key, n, disk))
  {
    WithoutChunksStep(s.entries, key, n);
    WithoutFilesStep(s.files, key, n, disk);
    if n > 0 {
      DropChunksEffect(s, key, n - 1, disk);
      DropOneEffect(s, DropChunks(key, n - 1, disk), ChunkId(key, n - 1), disk);
    }
  }

  lemma {:induction false} DropChunksDisciplined(names: Naming, cs: nat, s: State, key: string, n: nat, disk: Disk)
    requires cs > 0 && n <= TWO_TO_THE_64
    ensures Disciplined(names, cs, s, DropChunks(key, n, disk))
  {
    if n > 0 {
      var id := ChunkId(key, n - 1);
      var a := DropChunks(key, n - 1, disk);
      DropChunksDisciplined(names, cs, s, key, n - 1, disk);
      if id in disk.undeletable {
        assert a + DeleteChunkFile(id, disk) == a;
      } else {
        DisciplinedOne(names, cs, s, a, DeleteFile(id));
      }
      DisciplinedOne(names, cs, s, a + DeleteChunkFile(id, disk), DeleteEntry(id));
    }
  }

  /** How many chunks cleanup visits. */
  function DropCount(s: State, key: string, cs: nat): nat
    requires cs > 0
  {
    if key in s.objects then NumChunks(s.objects[key].contentLength, cs) else 0
  }

  /** `drop_cache_for_object`: exactly what is left. */
  lemma DropEffect(s: State, key: string, cs: nat, disk: Disk)
    requires cs > 0
    ensures Replay(s, DropLog(s, key, cs, disk))
            == State(s.upstream, s.objects - {key},
                     WithoutChunks(s.entries, key, DropCount(s, key, cs)),
                     WithoutFiles(s.files, key, DropCount(s, key, cs), disk))
  {
    var n := DropCount(s, key, cs);
    var chunks := if key in s.objects then DropChunks(key, n, disk) else [];
    DropChunksEffect(s, key, n, disk);
    assert chunks == DropChunks(key, n, disk);
    ReplayOne(s, chunks, DeleteObject(key));
  }

  /**
   * Cleanup. With a record, every entry lies below the recorded chunk count, so no entry is left; without one, all
   * entries are left. Either way there is no record, and exactly those chunk files are left that the disk refuses to
   * unlink or that no record accounted for.
   */
  lemma DropComplete(names: Naming, cs: nat, s: State, key: string, disk: Disk)
    requires cs > 0 && CrashSafe(names, cs, s)
    ensures var t := Replay(s, DropLog(s, key, cs, disk));
            && key !in t.objects
            && (forall id :: id in t.entries && id.key == key <==> id in s.entries && id.key == key && key !in s.objects)
            && (forall id :: id in t.files && id.key == key <==>
                  id in s.files && id.key == key && (id.idx < DropCount(s, key, cs) ==> id in disk.undeletable))
            && (NoEntries(t, key) <==> Recorded(s, key))
    ensures Disciplined(names, cs, s, DropLog(s, key, cs, disk))
  {
    DropEffect(s, key, cs, disk);
    var n := DropCount(s, key, cs);
    var chunks := if key in s.objects then DropChunks(key, n, disk) else [];
    assert chunks == DropChunks(key, n, disk);
    DropChunksEffect(s, key, n, disk);
    DropChunksDisciplined(names, cs, s, key, n, disk);
    DropRecordAllowed(names, cs, s, key, n, disk);
    DisciplinedOne(names, cs, s, chunks, DeleteObject(key));
  }

  /** Removing the record comes last, when either no chunk is registered or there was no record. */
  lemma DropRecordAllowed(names: Naming, cs: nat, s: State, key: string, n: nat, disk: Disk)
    requires cs > 0 && CrashSafe(names, cs, s) && n == DropCount(s, key, cs)
    ensures Allowed(names, cs, Replay(s, DropChunks(key, n, disk)), DeleteObject(key))
  {
    DropChunksEffect(s, key, n, disk);
    if key !in s.objects {
      assert Replay(s, DropChunks(key, n, disk)) == s;
      SafeByKey(names, cs, s);
    }
  }

  // --- metadata refresh ---

  /** HEAD leaves the record equal to what upstream reports, keeping the chunks only if they are still current. */
  lemma RefreshEffect(s: State, key: string, cs: nat, disk: Disk)
    requires cs > 0 && key in s.upstream
    ensures var meta := s.upstream[key].Meta();
            var stale := key in s.objects && Outdated(s.objects[key], meta);
            var base := if stale then Replay(s, DropLog(s, key, cs, disk)) else s;
            Replay(s, RefreshLog(s, key, cs, disk)) == base.(objects := base.objects[key := meta])
  {
    var meta := s.upstream[key].Meta();
    var drop := if key in s.objects && Outdated(s.objects[key], meta) then DropLog(s, key, cs, disk) else [];
    ReplayOne(s, drop, PutObject(key, meta));
  }

  lemma RefreshDisciplined(names: Naming, cs: nat, s: State, key: string, disk: Disk)
    requires cs > 0 && key in s.upstream && CrashSafe(names, cs, s)
    ensures Disciplined(names, cs, s, RefreshLog(s, key, cs, disk))
    ensures var t := Replay(s, RefreshLog(s, key, cs, disk));
            && CrashSafe(names, cs, t) && t.upstream == s.upstream
            && key in t.objects && t.objects[key] == s.upstream[key].Meta()
  {
    var meta := s.upstream[key].Meta();
    RefreshEffect(s, key, cs, disk);
    if key in s.objects && Outdated(s.objects[key], meta) {
      DropComplete(names, cs, s, key, disk);
      DropEffect(s, key, cs, disk);
      DisciplinedOne(names, cs, s, DropLog(s, key, cs, disk), PutObject(key, meta));
    } else {
      assert Allowed(names, cs, s, PutObject(key, meta));
      DisciplinedOne(names, cs, s, [], PutObject(key, meta));
      assert [] + [PutObject(key, meta)] == RefreshLog(s, key, cs, disk);
    }
    var log := RefreshLog(s, key, cs, disk);
    DisciplineSafe(names, cs, s, log, |log|);
    assert log[..|log|] == log;
  }

  /** Asking again changes nothing: the second HEAD of a GET is idempotent. */
  lemma RefreshIdempotent(s: State, key: string, cs: nat, disk: Disk)
    requires cs > 0 && key in s.upstream && key in s.objects && s.objects[key] == s.upstream[key].Meta()
    ensures Replay(s, RefreshLog(s, key, cs, disk)) == s
  {
    RefreshEffect(s, key, cs, disk);
    assert s.objects[key := s.upstream[key].Meta()] == s.objects;
  }

  // --- reading ---

  /** Equal up to access times. */
  ghost predicate SameButTimes(s: State, t: State) {
    && s.upstream == t.upstream && s.objects == t.objects && s.files == t.files
    && s.entries.Keys == t.entries.Keys
    && forall id :: id in s.entries ==> t.entries[id] == s.entries[id].(lastAccessedAt := t.entries[id].lastAccessedAt)
  }

  lemma TouchOne(s: State, t: State, id: ChunkId, now: int)
    requires SameButTimes(s, t) && id in s.entries
    ensures SameButTimes(s, Apply(t, PutEntry(id, s.entries[id].(lastAccessedAt := now))))
  {
  }

  lemma {:induction false} TouchEffect(s: State, key: string, begin: nat, limit: nat, clock: Clock)
    requires begin <= limit <= TWO_TO_THE_64
    ensures SameButTimes(s, Replay(s, TouchLog(s, key, begin, limit, clock)))
    decreases limit
  {
    if begin < limit {
      var id := ChunkId(key, limit - 1);
      var log := TouchLog(s, key, begin, limit - 1, clock);
      TouchEffect(s, key, begin, limit - 1, clock);
      if IsHit(s, id) {
        TouchOne(s, Replay(s, log), id, clock(id.idx));
        ReplayOne(s, log, PutEntry(id, s.entries[id].(lastAccessedAt := clock(id.idx))));
      } else {
        assert log + TouchEntry(s, id, clock) == log;
      }
    }
  }

  lemma TouchAllowed(names: Naming, cs: nat, s: State, t: State, id: ChunkId, now: int)
    requires cs > 0 && CrashSafe(names, cs, s) && SameButTimes(s, t) && IsHit(s, id)
    ensures Allowed(names, cs, t, PutEntry(id, s.entries[id].(lastAccessedAt := now)))
  {
    assert Governing(t, id.key) == Governing(s, id.key);
    assert EntryRight(names, cs, Governing(s, id.key).value, id, s.entries[id], s.files);
  }

  lemma TouchStep(names: Naming, cs: nat, s: State, log: Log, id: ChunkId, clock: Clock)
    requires cs > 0 && CrashSafe(names, cs, s) && SameButTimes(s, Replay(s, log)) && Disciplined(names, cs, s, log)
    ensures Disciplined(names, cs, s, log + TouchEntry(s, id, clock))
  {
    if IsHit(s, id) {
      var w := PutEntry(id, s.entries[id].(lastAccessedAt := clock(id.idx)));
      TouchAllowed(names, cs, s, Replay(s, log), id, clock(id.idx));
      DisciplinedOne(names, cs, s, log, w);
      assert TouchEntry(s, id, clock) == [w];
    } else {
      assert log + TouchEntry(s, id, clock) == log;
    }
  }

  lemma {:induction false} TouchDisciplined(names: Naming, cs: nat, s: State, key: string, begin: nat, limit: nat,
                                            clock: Clock)
    requires cs > 0 && CrashSafe(names, cs, s) && begin <= limit <= TWO_TO_THE_64
    ensures Disciplined(names, cs, s, TouchLog(s, key, begin, limit, clock))
    decreases limit
  {
    if begin < limit {
      TouchDisciplined(names, cs, s, key, begin, limit - 1, clock);
      TouchEffect(s, key, begin, limit - 1, clock);
      TouchStep(names, cs, s, TouchLog(s, key, begin, limit - 1, clock), ChunkId(key, limit - 1), clock);
    }
  }

  // --- writing ---

  /** `m` with values given by `f` for the chunks of `key` below `n`. */
  function PutIndexed<V>(m: map<ChunkId, V>, key: string, n: nat, f: nat -> V): map<ChunkId, V>
    requires n <= TWO_TO_THE_64
  {
    if n == 0 then m else PutIndexed(m, key, n - 1, f)[ChunkId(key, n - 1) := f(n - 1)]
  }

  lemma {:induction false} PutIndexedAt<V>(m: map<ChunkId, V>, key: string, n: nat, f: nat -> V)
    requires n <= TWO_TO_THE_64
    ensures var r := PutIndexed(m, key, n, f);
            && (forall id: ChunkId :: id.key == key && id.idx < n ==> id in r && r[id] == f(id.idx))
            && (forall id: ChunkId :: !(id.key == key && id.idx < n) ==>
                  (id in r <==> id in m) && (id in m ==> r[id] == m[id]))
  {
    if n > 0 {
      PutIndexedAt(m, key, n - 1, f);
    }
  }

  function BlockOf(content: seq<byte>, cs: nat): nat -> seq<byte> {
    (i: nat) => Block(content, cs, i)
  }

  lemma {:induction false} WriteChunksEffect(s: State, key: string, content: seq<byte>, cs: nat, n: nat)
    requires n <= TWO_TO_THE_64
    ensures Replay(s, WriteChunks(key, content, cs, n))
            == s.(files := PutIndexed(s.files, key, n, BlockOf(content, cs)))
  {
    if n > 0 {
      WriteChunksEffect(s, key, content, cs, n - 1);
      ReplayOne(s, WriteChunks(key, content, cs, n - 1), SetFile(ChunkId(key, n - 1), Block(content, cs, n - 1)));
    }
  }

  /** Writing chunk files touches neither tables nor upstream. */
  lemma WriteChunksElse(s: State, key: string, content: seq<byte>, cs: nat, n: nat)
    requires n <= TWO_TO_THE_64
    ensures var t := Replay(s, WriteChunks(key, content, cs, n));
            t.entries == s.entries && t.objects == s.objects && t.upstream == s.upstream
  {
    WriteChunksEffect(s, key, content, cs, n);
  }

  /** A new file for a registered chunk of `key` must be right for what governs the object. */
  ghost predicate OverwriteRight(names: Naming, cs: nat, s: State, content: seq<byte>, id: ChunkId)
    requires cs > 0
  {
    && Governing(s, id.key).Some?
    && FileRight(names, cs, Governing(s, id.key).value, id.idx, Block(content, cs, id.idx))
  }

  ghost predicate OverwritesRight(names: Naming, cs: nat, s: State, key: string, content: seq<byte>, n: nat)
    requires cs > 0
  {
    forall id :: id in s.entries && id.key == key && id.idx < n ==> OverwriteRight(names, cs, s, content, id)
  }

  lemma OverwritesRightStep(names: Naming, cs: nat, s: State, key: string, content: seq<byte>, n: nat)
    requires cs > 0 && 0 < n <= TWO_TO_THE_64
    ensures OverwritesRight(names, cs, s, key, content, n) <==>
              && OverwritesRight(names, cs, s, key, content, n - 1)
              && (ChunkId(key, n - 1) in s.entries ==> OverwriteRight(names, cs, s, content, ChunkId(key, n - 1)))
  {
    assert forall id: ChunkId :: id.key == key && id.idx == n - 1 ==> id == ChunkId(key, n - 1);
  }

  /** Whether a file may be written depends on the tables and upstream only. */
  lemma SetFileAllowed(names: Naming, cs: nat, s: State, t: State, id: ChunkId, data: seq<byte>)
    requires cs > 0 && t.entries == s.entries && t.objects == s.objects && t.upstream == s.upstream
    ensures Allowed(names, cs, t, SetFile(id, data)) <==>
              (id in s.entries ==>
                 Governing(s, id.key).Some? && FileRight(names, cs, Governing(s, id.key).value, id.idx, data))
  {
  }

  /** The chunk files of an upload may be written exactly when every registered chunk they replace gets right bytes. */
  lemma {:induction false} WriteChunksExactly(names: Naming, cs: nat, s: State, key: string, content: seq<byte>, n: nat)
    requires cs > 0 && n <= TWO_TO_THE_64
    ensures Disciplined(names, cs, s, WriteChunks(key, content, cs, n)) <==> OverwritesRight(names, cs, s, key, content, n)
  {
    if n > 0 {
      WriteChunksExactly(names, cs, s, key, content, n - 1);
      WriteChunksElse(s, key, content, cs, n - 1);
      SetFileAllowed(names, cs, s, Replay(s, WriteChunks(key, content, cs, n - 1)), ChunkId(key, n - 1),
                     Block(content, cs, n - 1));
      OverwritesRightStep(names, cs, s, key, content, n);
      DisciplinedSnoc(names, cs, s, WriteChunks(key, content, cs, n - 1),
                      SetFile(ChunkId(key, n - 1), Block(content, cs, n - 1)));
    }
  }

  lemma {:induction false} DeleteFilesEffect(s: State, key: string, n: nat, disk: Disk)
    requires n <= TWO_TO_THE_64
    ensures Replay(s, DeleteFiles(key, n, disk)) == s.(files := WithoutFiles(s.files, key, n, disk))
  {
    WithoutFilesStep(s.files, key, n, disk);
    if n > 0 {
      DeleteFilesEffect(s, key, n - 1, disk);
      DeleteChunkFileEffect(s, DeleteFiles(key, n - 1, disk), ChunkId(key, n - 1), disk);
    }
  }

  lemma {:induction false} DeleteFilesDisciplined(names: Naming, cs: nat, s: State, key: string, n: nat, disk: Disk)
    requires cs > 0 && n <= TWO_TO_THE_64
    ensures Disciplined(names, cs, s, DeleteFiles(key, n, disk))
  {
    if n > 0 {
      var id := ChunkId(key, n - 1);
      var a := DeleteFiles(key, n - 1, disk);
      DeleteFilesDisciplined(names, cs, s, key, n - 1, disk);
      if id in disk.undeletable {
        assert a + DeleteChunkFile(id, disk) == a;
      } else {
        DisciplinedOne(names, cs, s, a, DeleteFile(id));
      }
    }
  }

  function EntryOf(len: nat, cs: nat, clock: Clock): nat -> ChunkMeta {
    (i: nat) => ChunkMeta(Truncate32(BlockLen(len, cs, i)), clock(i), Complete)
  }

  lemma {:induction false} RegisterEffect(s: State, key: string, len: nat, cs: nat, n: nat, clock: Clock)
    requires n <= TWO_TO_THE_64
    ensures Replay(s, RegisterChunks(key, len, cs, n, clock))
            == s.(entries := PutIndexed(s.entries, key, n, EntryOf(len, cs, clock)))
  {
    if n > 0 {
      RegisterEffect(s, key, len, cs, n - 1, clock);
      ReplayOne(s, RegisterChunks(key, len, cs, n - 1, clock),
                PutEntry(ChunkId(key, n - 1), ChunkMeta(Truncate32(BlockLen(len, cs, n - 1)), clock(n - 1), Complete)));
    }
  }

  /** An entry cut from the stored object is right for it. */
  lemma StoredEntryRight(names: Naming, cs: nat, o: Object, id: ChunkId, now: int, files: map<ChunkId, seq<byte>>)
    requires cs > 0 && NamedBy(names, o) && id.idx < NumChunks(|o.content|, cs)
    requires id in files && files[id] == Block(o.content, cs, id.idx)
    ensures EntryRight(names, cs, o.Meta(), id,
                       ChunkMeta(Truncate32(BlockLen(|o.content|, cs, id.idx)), now, Complete), files)
  {
    BlockSizes(o.content, cs, id.idx);
  }

  /** Registration after the upload: each entry is right for the object upstream now stores. */
  lemma {:induction false} RegisterDisciplined(names: Naming, cs: nat, s: State, key: string, n: nat, clock: Clock)
    requires cs > 0
    requires key !in s.objects && key in s.upstream && NamedBy(names, s.upstream[key])
    requires n <= NumChunks(|s.upstream[key].content|, cs)
    requires forall id: ChunkId :: id.key == key && id.idx < n ==>
               id in s.files && s.files[id] == Block(s.upstream[key].content, cs, id.idx)
    ensures Disciplined(names, cs, s, RegisterChunks(key, |s.upstream[key].content|, cs, n, clock))
  {
    if n > 0 {
      var o := s.upstream[key];
      RegisterDisciplined(names, cs, s, key, n - 1, clock);
      var id := ChunkId(key, n - 1);
      StoredEntryRight(names, cs, o, id, clock(n - 1), s.files);
      RegisterNext(names, cs, s, RegisterChunks(key, |o.content|, cs, n - 1, clock), key, |o.content|, n, clock);
    }
  }

  lemma RegisterNext(names: Naming, cs: nat, s: State, log: Log, key: string, len: nat, n: nat, clock: Clock)
    requires cs > 0 && 0 < n <= TWO_TO_THE_64 && key !in s.objects && key in s.upstream
    requires log == RegisterChunks(key, len, cs, n - 1, clock) && Disciplined(names, cs, s, log)
    requires EntryRight(names, cs, s.upstream[key].Meta(), ChunkId(key, n - 1), EntryOf(len, cs, clock)(n - 1), s.files)
    ensures Disciplined(names, cs, s, RegisterChunks(key, len, cs, n, clock))
  {
    RegisterEffect(s, key, len, cs, n - 1, clock);
    DisciplinedOne(names, cs, s, log, PutEntry(ChunkId(key, n - 1), EntryOf(len, cs, clock)(n - 1)));
  }
}

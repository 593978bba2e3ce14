/** COPY of the cached chunks: coherent on a clear destination, and how it goes wrong on a cached one. */
module Copying {
  import opened Basics
  import opened ChunkKey
  import opened Blocks
  import opened CacheModel
  import opened Coherence
  import opened Operations
  import opened Reading

  /**
   * Nothing at the destination survives the copy: it has no chunk entry, and no chunk file at an index whose source
   * chunk is registered without its file.
   */
  ghost predicate TargetClear(s: State, src: string, dest: string) {
    && NoEntries(s, dest)
    && forall id :: id in s.files && id.key == dest ==> !Lost(s, ChunkId(src, id.idx))
  }

  /** The destination's entries below `n` become the source's complete ones. */
  function CopyEntries(s: State, src: string, dest: string, n: nat): map<ChunkId, ChunkMeta>
    requires n <= TWO_TO_THE_64
  {
    if n == 0 then s.entries
    else
      var from, rest := ChunkId(src, n - 1), CopyEntries(s, src, dest, n - 1);
      if IsHit(s, from) then rest[ChunkId(dest, n - 1) := s.entries[from]] else rest
  }

  /** What a copied file ends up holding. */
  function CopiedFile(s: State, src: string, dest: string, idx: u64): seq<byte>
    requires ChunkId(src, idx) in s.files
  {
    if src == dest then [] else s.files[ChunkId(src, idx)]
  }

  /** The same for the files. */
  function CopyFiles(s: State, src: string, dest: string, n: nat): map<ChunkId, seq<byte>>
    requires n <= TWO_TO_THE_64
  {
    if n == 0 then s.files
    else
      var from, rest := ChunkId(src, n - 1), CopyFiles(s, src, dest, n - 1);
      if IsHit(s, from) && from in s.files then rest[ChunkId(dest, n - 1) := CopiedFile(s, src, dest, n - 1)] else rest
  }

  /** Chunk by chunk, what the destination holds afterwards. */
  lemma {:induction false} CopyEntriesAt(s: State, src: string, dest: string, n: nat, id: ChunkId)
    requires n <= TWO_TO_THE_64
    ensures var r := CopyEntries(s, src, dest, n);
            if id.key == dest && id.idx < n && IsHit(s, ChunkId(src, id.idx)) then
              id in r && r[id] == s.entries[ChunkId(src, id.idx)]
            else
              (id in r <==> id in s.entries) && (id in s.entries ==> r[id] == s.entries[id])
  {
    if n > 0 {
      CopyEntriesAt(s, src, dest, n - 1, id);
    }
  }

  lemma {:induction false} CopyFilesAt(s: State, src: string, dest: string, n: nat, id: ChunkId)
    requires n <= TWO_TO_THE_64
    ensures var r := CopyFiles(s, src, dest, n);
            if id.key == dest && id.idx < n && IsHit(s, ChunkId(src, id.idx)) && ChunkId(src, id.idx) in s.files then
              id in r && r[id] == CopiedFile(s, src, dest, id.idx)
            else
              (id in r <==> id in s.files) && (id in s.files ==> r[id] == s.files[id])
  {
    if n > 0 {
      CopyFilesAt(s, src, dest, n - 1, id);
    }
  }

  /** `t` with the destination's chunk `idx` made equal to the source's in `s`, if that is complete. */
  function WithChunk(s: State, t: State, src: string, dest: string, idx: u64): State {
    var from, target := ChunkId(src, idx), ChunkId(dest, idx);
    if !IsHit(s, from) then t
    else
      t.(files := if from in s.files then t.files[target := CopiedFile(s, src, dest, idx)] else t.files,
         entries := t.entries[target := s.entries[from]])
  }

  /** The steps of copying one chunk, after whatever came before. */
  lemma CopyShape(s: State, log: Log, src: string, dest: string, idx: u64)
    ensures var from, target := ChunkId(src, idx), ChunkId(dest, idx);
            log + CopyChunk(s, src, dest, idx)
            == if !IsHit(s, from) then log
               else if from !in s.files then log + [PutEntry(target, s.entries[from])]
               else if from == target then log + [SetFile(target, [])] + [PutEntry(target, s.entries[from])]
               else log + [SetFile(target, [])] + [SetFile(target, s.files[from])] + [PutEntry(target, s.entries[from])]
  {
  }

  lemma CopyChunkEffect(s: State, log: Log, src: string, dest: string, idx: u64)
    ensures Replay(s, log + CopyChunk(s, src, dest, idx)) == WithChunk(s, Replay(s, log), src, dest, idx)
  {
    var from, target := ChunkId(src, idx), ChunkId(dest, idx);
    CopyShape(s, log, src, dest, idx);
    if IsHit(s, from) {
      var entry := PutEntry(target, s.entries[from]);
      if from !in s.files {
        ReplayOne(s, log, entry);
      } else if from == target {
        ReplayOne(s, log, SetFile(target, []));
        ReplayOne(s, log + [SetFile(target, [])], entry);
      } else {
        var data := s.files[from];
        ReplayOne(s, log, SetFile(target, []));
        ReplayOne(s, log + [SetFile(target, [])], SetFile(target, data));
        ReplayOne(s, log + [SetFile(target, [])] + [SetFile(target, data)], entry);
        assert Replay(s, log).files[target := []][target := data] == Replay(s, log).files[target := data];
      }
    }
  }

  /** Copying starts by giving the destination the source's record. */
  function RecordFirst(s: State, src: string, dest: string): Log
    requires src in s.objects
  {
    [PutObject(dest, s.objects[src])]
  }

  function CopyPrefix(s: State, src: string, dest: string, n: nat): Log
    requires n <= TWO_TO_THE_64 && src in s.objects
  {
    RecordFirst(s, src, dest) + CopyChunks(s, src, dest, n)
  }

  lemma CopyPrefixStep(s: State, src: string, dest: string, n: nat)
    requires n <= TWO_TO_THE_64 && src in s.objects
    ensures n == 0 ==> CopyPrefix(s, src, dest, n) == [] + [PutObject(dest, s.objects[src])]
    ensures n > 0 ==> CopyPrefix(s, src, dest, n) == CopyPrefix(s, src, dest, n - 1) + CopyChunk(s, src, dest, n - 1)
  {
  }

  lemma {:induction false} CopyChunksEffect(s: State, src: string, dest: string, n: nat)
    requires n <= TWO_TO_THE_64 && src in s.objects
    ensures Replay(s, CopyPrefix(s, src, dest, n))
            == State(s.upstream, s.objects[dest := s.objects[src]],
                     CopyEntries(s, src, dest, n), CopyFiles(s, src, dest, n))
  {
    CopyPrefixStep(s, src, dest, n);
    if n == 0 {
      ReplayOne(s, [], PutObject(dest, s.objects[src]));
    } else {
      CopyChunksEffect(s, src, dest, n - 1);
      CopyChunkEffect(s, CopyPrefix(s, src, dest, n - 1), src, dest, n - 1);
    }
  }

  // --- crash points of a copy ---

  /**
   * Copying chunk `idx` is safe at every write: a file is copied only to an unregistered chunk, and an entry without
   * its file only to where no file, or the right one, is.
   */
  ghost predicate StepSafeAt(names: Naming, cs: nat, s: State, record: ObjectMeta, src: string, dest: string, idx: u64)
    requires cs > 0
  {
    var from, target := ChunkId(src, idx), ChunkId(dest, idx);
    IsHit(s, from) ==>
      if from in s.files then target !in s.entries
      else target in s.files ==> FileRight(names, cs, record, idx, s.files[target])
  }

  /** A registered chunk is not empty, so an emptied file is never right for it. */
  lemma EmptyFileWrong(names: Naming, cs: nat, record: ObjectMeta, idx: nat)
    requires cs > 0 && idx < NumChunks(record.contentLength, cs)
    ensures !FileRight(names, cs, record, idx, [])
  {
    IndexInRange(record.contentLength, cs, idx);
    StartMonotone(record.contentLength, cs, idx);
  }

  /** What the destination's chunk `idx` looks like just before it is copied. */
  ghost predicate Untouched(s: State, t: State, src: string, dest: string, idx: u64)
    requires src in s.objects
  {
    var target := ChunkId(dest, idx);
    && dest in t.objects && t.objects[dest] == s.objects[src]
    && (target in t.entries <==> target in s.entries)
    && (target in t.files <==> target in s.files) && (target in t.files ==> t.files[target] == s.files[target])
  }

  lemma StillUntouched(s: State, src: string, dest: string, idx: u64)
    requires src in s.objects
    ensures Untouched(s, Replay(s, CopyPrefix(s, src, dest, idx)), src, dest, idx)
  {
    CopyChunksEffect(s, src, dest, idx);
    CopyEntriesAt(s, src, dest, idx, ChunkId(dest, idx));
    CopyFilesAt(s, src, dest, idx, ChunkId(dest, idx));
  }

  /** The entry of a copied chunk, once its file is in place or known to be missing. */
  lemma EntryCopied(names: Naming, cs: nat, s: State, u: State, src: string, dest: string, idx: u64)
    requires cs > 0 && src in s.objects && IsHit(s, ChunkId(src, idx))
    requires EntryRight(names, cs, s.objects[src], ChunkId(src, idx), s.entries[ChunkId(src, idx)], s.files)
    requires dest in u.objects && u.objects[dest] == s.objects[src]
    ensures Allowed(names, cs, u, PutEntry(ChunkId(dest, idx), s.entries[ChunkId(src, idx)])) <==>
              (ChunkId(dest, idx) in u.files ==> FileRight(names, cs, s.objects[src], idx, u.files[ChunkId(dest, idx)]))
  {
  }

  /** The writes of one chunk's copy are allowed exactly when the step is safe. */
  lemma CopyChunkExactly(names: Naming, cs: nat, s: State, log: Log, src: string, dest: string, idx: u64)
    requires cs > 0 && src in s.objects && Disciplined(names, cs, s, log)
    requires var from := ChunkId(src, idx);
             IsHit(s, from) ==> EntryRight(names, cs, s.objects[src], from, s.entries[from], s.files)
    requires Untouched(s, Replay(s, log), src, dest, idx)
    ensures Disciplined(names, cs, s, log + CopyChunk(s, src, dest, idx))
            <==> StepSafeAt(names, cs, s, s.objects[src], src, dest, idx)
  {
    var from, target := ChunkId(src, idx), ChunkId(dest, idx);
    CopyShape(s, log, src, dest, idx);
    if IsHit(s, from) {
      if from !in s.files {
        EntryCopied(names, cs, s, Replay(s, log), src, dest, idx);
        DisciplinedSnoc(names, cs, s, log, PutEntry(target, s.entries[from]));
      } else {
        CopyFileExactly(names, cs, s, log, src, dest, idx);
      }
    }
  }

  /** With a file to copy, everything hangs on the truncation: it must not hit a registered chunk. */
  lemma CopyFileExactly(names: Naming, cs: nat, s: State, log: Log, src: string, dest: string, idx: u64)
    requires cs > 0 && src in s.objects && Disciplined(names, cs, s, log)
    requires IsHit(s, ChunkId(src, idx)) && ChunkId(src, idx) in s.files
    requires EntryRight(names, cs, s.objects[src], ChunkId(src, idx), s.entries[ChunkId(src, idx)], s.files)
    requires Untouched(s, Replay(s, log), src, dest, idx)
    ensures Disciplined(names, cs, s, log + CopyChunk(s, src, dest, idx)) <==> ChunkId(dest, idx) !in s.entries
  {
    var from, target := ChunkId(src, idx), ChunkId(dest, idx);
    var t := Replay(s, log);
    var truncate, fill, register := SetFile(target, []), SetFile(target, s.files[from]), PutEntry(target, s.entries[from]);
    CopyShape(s, log, src, dest, idx);
    EmptyFileWrong(names, cs, s.objects[src], idx);
    DisciplinedSnoc(names, cs, s, log, truncate);
    ReplayOne(s, log, truncate);
    if from == target {
      DisciplinedSnoc(names, cs, s, log + [truncate], register);
    } else {
      ReplayOne(s, log + [truncate], fill);
      DisciplinedSnoc(names, cs, s, log + [truncate], fill);
      DisciplinedSnoc(names, cs, s, log + [truncate] + [fill], register);
      EntryCopied(names, cs, s, Replay(s, log + [truncate] + [fill]), src, dest, idx);
    }
  }

  ghost predicate StepsSafe(names: Naming, cs: nat, s: State, src: string, dest: string, n: nat)
    requires cs > 0 && src in s.objects && n <= TWO_TO_THE_64
  {
    n == 0 || (StepsSafe(names, cs, s, src, dest, n - 1) && StepSafeAt(names, cs, s, s.objects[src], src, dest, n - 1))
  }

  lemma {:induction false} StepsSafeAt(names: Naming, cs: nat, s: State, src: string, dest: string, n: nat)
    requires cs > 0 && src in s.objects && n <= TWO_TO_THE_64
    ensures StepsSafe(names, cs, s, src, dest, n)
            <==> forall idx: nat :: idx < n ==> StepSafeAt(names, cs, s, s.objects[src], src, dest, idx)
  {
    if n > 0 {
      StepsSafeAt(names, cs, s, src, dest, n - 1);
    }
  }

  /** One more chunk, whether or not the copy went well so far. */
  lemma CopyNextExactly(names: Naming, cs: nat, s: State, log: Log, src: string, dest: string, idx: u64)
    requires cs > 0 && CrashSafe(names, cs, s) && src in s.objects && Untouched(s, Replay(s, log), src, dest, idx)
    ensures Disciplined(names, cs, s, log + CopyChunk(s, src, dest, idx)) <==>
              Disciplined(names, cs, s, log) && StepSafeAt(names, cs, s, s.objects[src], src, dest, idx)
  {
    if Disciplined(names, cs, s, log) {
      CopyChunkExactly(names, cs, s, log, src, dest, idx);
    } else {
      DisciplinedParts(names, cs, s, log, CopyChunk(s, src, dest, idx));
    }
  }

  lemma {:induction false} CopyChunksExactly(names: Naming, cs: nat, s: State, src: string, dest: string, n: nat)
    requires cs > 0 && n <= TWO_TO_THE_64 && CrashSafe(names, cs, s) && src in s.objects
    ensures Disciplined(names, cs, s, CopyPrefix(s, src, dest, n))
            <==> EntriesFit(names, cs, s, dest, s.objects[src]) && StepsSafe(names, cs, s, src, dest, n)
  {
    CopyPrefixStep(s, src, dest, n);
    if n == 0 {
      DisciplinedSnoc(names, cs, s, [], PutObject(dest, s.objects[src]));
    } else {
      CopyChunksExactly(names, cs, s, src, dest, n - 1);
      StillUntouched(s, src, dest, n - 1);
      CopyNextExactly(names, cs, s, CopyPrefix(s, src, dest, n - 1), src, dest, n - 1);
    }
  }

  /**
   * The destination can be copied onto with a crash at any write: what is registered there is right for the source's
   * record, and no registered chunk's file is going to be truncated.
   */
  ghost predicate CopySafeThroughout(names: Naming, cs: nat, s: State, src: string, dest: string)
    requires cs > 0 && src in s.objects
  {
    && EntriesFit(names, cs, s, dest, s.objects[src])
    && forall idx: u64 :: idx < NumChunks(s.objects[src].contentLength, cs) ==>
         StepSafeAt(names, cs, s, s.objects[src], src, dest, idx)
  }

  /** A copy, onto any destination, is safe at every crash point exactly then. */
  lemma CopyDisciplinedExactly(names: Naming, cs: nat, s: State, src: string, dest: string)
    requires cs > 0 && CrashSafe(names, cs, s) && src in s.objects
    ensures Disciplined(names, cs, s, CopyLog(s, src, dest, cs)) <==> CopySafeThroughout(names, cs, s, src, dest)
    ensures SafeThroughout(names, cs, s, CopyLog(s, src, dest, cs)) <==> CopySafeThroughout(names, cs, s, src, dest)
  {
    var n := NumChunks(s.objects[src].contentLength, cs);
    DisciplineExactly(names, cs, s, CopyLog(s, src, dest, cs));
    assert CopyLog(s, src, dest, cs) == CopyPrefix(s, src, dest, n);
    CopyChunksExactly(names, cs, s, src, dest, n);
    StepsSafeAt(names, cs, s, src, dest, n);
  }

  /** After a copy, the destination has the source's record and every new entry is backed if the source's is. */
  lemma CopyResult(s: State, src: string, dest: string, cs: nat)
    requires cs > 0 && src in s.objects
    ensures var t := Replay(s, CopyLog(s, src, dest, cs));
            && t.upstream == s.upstream && t.objects == s.objects[dest := s.objects[src]]
            && (forall id :: id in t.entries ==> id in s.entries || id.key == dest)
            && (Backed(s) ==> Backed(t))
  {
    var n := NumChunks(s.objects[src].contentLength, cs);
    assert CopyLog(s, src, dest, cs) == CopyPrefix(s, src, dest, n);
    CopyChunksEffect(s, src, dest, n);
    var entries, files := CopyEntries(s, src, dest, n), CopyFiles(s, src, dest, n);
    forall id | id in entries
      ensures id in s.entries || id.key == dest
      ensures Backed(s) ==> id in files
    {
      CopyEntriesAt(s, src, dest, n, id);
      CopyFilesAt(s, src, dest, n, id);
    }
  }

  /**
   * Copying to a clear destination keeps every chunk right, whether the source is partly evicted or out of date:
   * the destination inherits the source's version together with its chunks.
   */
  lemma CopyCoherent(names: Naming, cs: nat, s: State, src: string, dest: string)
    requires cs > 0 && CrashSafe(names, cs, s) && src != dest && TargetClear(s, src, dest)
    ensures Disciplined(names, cs, s, CopyLog(s, src, dest, cs))
    ensures var t := Replay(s, CopyLog(s, src, dest, cs));
            && CrashSafe(names, cs, t) && t.upstream == s.upstream
            && (src in s.objects ==> dest in t.objects && t.objects[dest] == s.objects[src])
            && (src !in s.objects ==> t == s)
            && (Coherent(names, cs, s) ==> Coherent(names, cs, t))
            && (Backed(s) ==> Backed(t))
  {
    var log := CopyLog(s, src, dest, cs);
    if src in s.objects {
      CopyDisciplinedExactly(names, cs, s, src, dest);
      CopyResult(s, src, dest, cs);
    }
    DisciplineSafe(names, cs, s, log, |log|);
    assert log[..|log|] == log;
  }

  // --- the end of a copy ---

  /**
   * What already sits at the destination and outlives the copy agrees with the source's record: an entry whose
   * source chunk is not cached, and a file whose source chunk is registered without one. A chunk copied onto itself
   * loses its file's content, so it must have none.
   */
  ghost predicate LeftoversAgree(names: Naming, cs: nat, s: State, src: string, dest: string)
    requires cs > 0 && src in s.objects
  {
    forall id: ChunkId :: id.key == dest ==> LeftoverAgrees(names, cs, s, s.objects[src], src, id)
  }

  ghost predicate LeftoverAgrees(names: Naming, cs: nat, s: State, record: ObjectMeta, src: string, id: ChunkId)
    requires cs > 0
  {
    var from := ChunkId(src, id.idx);
    && (id in s.entries && !IsHit(s, from) ==> EntryRight(names, cs, record, id, s.entries[id], s.files))
    && (id in s.files && Lost(s, from) ==> FileRight(names, cs, record, id.idx, s.files[id]))
    && (id == from ==> !(IsHit(s, id) && id in s.files))
  }

  /** Every registered chunk is right, except perhaps those of another object that is about to be copied onto. */
  ghost predicate SafeBut(names: Naming, cs: nat, s: State, src: string, dest: string)
    requires cs > 0
  {
    && UpstreamNamed(names, s)
    && forall id :: id in s.entries && (id.key == dest ==> src == dest) ==>
         && Governing(s, id.key).Some?
         && EntryRight(names, cs, Governing(s, id.key).value, id, s.entries[id], s.files)
  }

  /** One chunk of the destination after the copy is right exactly when the leftover there agrees. */
  lemma CopiedChunkRight(names: Naming, cs: nat, s: State, src: string, id: ChunkId)
    requires cs > 0 && SafeBut(names, cs, s, src, id.key) && src in s.objects
    ensures var n := NumChunks(s.objects[src].contentLength, cs);
            var entries, files := CopyEntries(s, src, id.key, n), CopyFiles(s, src, id.key, n);
            (id in entries ==> EntryRight(names, cs, s.objects[src], id, entries[id], files))
            <==> LeftoverAgrees(names, cs, s, s.objects[src], src, id)
  {
    var n := NumChunks(s.objects[src].contentLength, cs);
    var from := ChunkId(src, id.idx);
    CopyEntriesAt(s, src, id.key, n, id);
    CopyFilesAt(s, src, id.key, n, id);
    if IsHit(s, from) {
      assert EntryRight(names, cs, s.objects[src], from, s.entries[from], s.files);
      EmptyFileWrong(names, cs, s.objects[src], id.idx);
    }
  }

  /** A chunk of another object is as it was. */
  lemma UncopiedChunk(s: State, src: string, dest: string, n: nat, id: ChunkId)
    requires n <= TWO_TO_THE_64 && id.key != dest
    ensures var entries, files := CopyEntries(s, src, dest, n), CopyFiles(s, src, dest, n);
            && (id in entries <==> id in s.entries) && (id in entries ==> entries[id] == s.entries[id])
            && (id in files <==> id in s.files) && (id in files ==> files[id] == s.files[id])
  {
    CopyEntriesAt(s, src, dest, n, id);
    CopyFilesAt(s, src, dest, n, id);
  }

  /**
   * A COPY that runs to its end, onto any destination, leaves every chunk right exactly when the destination's
   * leftovers agree with the source's record.
   */
  lemma CopySafeExactly(names: Naming, cs: nat, s: State, src: string, dest: string)
    requires cs > 0 && SafeBut(names, cs, s, src, dest) && src in s.objects
    ensures CrashSafe(names, cs, Replay(s, CopyLog(s, src, dest, cs))) <==> LeftoversAgree(names, cs, s, src, dest)
  {
    var n := NumChunks(s.objects[src].contentLength, cs);
    assert CopyLog(s, src, dest, cs) == CopyPrefix(s, src, dest, n);
    CopyChunksEffect(s, src, dest, n);
    var t := Replay(s, CopyLog(s, src, dest, cs));
    forall id: ChunkId
      ensures id.key == dest ==>
                ((id in t.entries ==> EntryRight(names, cs, s.objects[src], id, t.entries[id], t.files))
                 <==> LeftoverAgrees(names, cs, s, s.objects[src], src, id))
      ensures id.key != dest && id in t.entries ==>
                Governing(t, id.key).Some? && EntryRight(names, cs, Governing(t, id.key).value, id, t.entries[id], t.files)
    {
      if id.key == dest {
        CopiedChunkRight(names, cs, s, src, id);
      } else {
        UncopiedChunk(s, src, dest, n, id);
      }
    }
  }

  /** The next HEAD or GET of the destination drops the copied chunks whenever they are of another version. */
  lemma StaleCopyDropped(names: Naming, cs: nat, s: State, key: string, disk: Disk)
    requires cs > 0 && CrashSafe(names, cs, s) && key in s.upstream && key in s.objects
    requires Outdated(s.objects[key], s.upstream[key].Meta())
    ensures var t := Replay(s, RefreshLog(s, key, cs, disk));
            NoEntries(t, key) && t.objects[key] == s.upstream[key].Meta()
  {
    RefreshEffect(s, key, cs, disk);
    DropComplete(names, cs, s, key, disk);
  }
}

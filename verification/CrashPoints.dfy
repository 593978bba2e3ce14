/**
 * Where a PUT may die. Every crash point leaves right chunks; the one window that leaves chunks registered without
 * their object is registration. What such leftovers do to a later PUT, DELETE or change upstream, a plain retry
 * included, is stated exactly in PutOperation and Runs.
 */
module CrashPoints {
  import opened Basics
  import opened ChunkKey
  import opened Blocks
  import opened CacheModel
  import opened Coherence
  import opened Operations
  import opened PutOperation
  import opened Reading
  import opened ByteRange
  import opened Copying
  import opened Runs
  import opened Refinement

  /** A log that registers nothing. */
  ghost predicate Unregistering(log: Log) {
    forall w :: w in log ==> !w.PutEntry?
  }

  lemma {:induction false} UnregisteringShrinks(s: State, log: Log)
    requires Unregistering(log)
    ensures Replay(s, log).entries.Keys <= s.entries.Keys
  {
    if log != [] {
      UnregisteringShrinks(s, log[..|log| - 1]);
      assert log[|log| - 1] in log;
    }
  }

  /** Once an object has no entry, a log that registers nothing keeps it so. */
  lemma StillNoEntries(s: State, log: Log, key: string)
    requires NoEntries(s, key) && Unregistering(log)
    ensures NoEntries(Replay(s, log), key)
  {
    UnregisteringShrinks(s, log);
  }

  lemma {:induction false} DropChunksKeepsRecords(s: State, key: string, n: nat, disk: Disk, k: nat)
    requires n <= TWO_TO_THE_64 && k <= |DropChunks(key, n, disk)|
    ensures Replay(s, DropChunks(key, n, disk)[..k]).objects == s.objects
    ensures Unregistering(DropChunks(key, n, disk))
  {
    DropChunksRecordFree(key, n, disk);
    RecordFreeKeeps(s, DropChunks(key, n, disk)[..k]);
  }

  ghost predicate RecordFree(log: Log) {
    forall w :: w in log ==> !w.PutObject? && !w.DeleteObject?
  }

  lemma {:induction false} DropChunksRecordFree(key: string, n: nat, disk: Disk)
    requires n <= TWO_TO_THE_64
    ensures RecordFree(DropChunks(key, n, disk)) && Unregistering(DropChunks(key, n, disk))
  {
    if n > 0 {
      DropChunksRecordFree(key, n - 1, disk);
    }
  }

  lemma {:induction false} RecordFreeKeeps(s: State, log: Log)
    requires RecordFree(log)
    ensures Replay(s, log).objects == s.objects
  {
    if log != [] {
      RecordFreeKeeps(s, log[..|log| - 1]);
      assert log[|log| - 1] in log;
    }
  }

  lemma {:induction false} WriteChunksUnregistering(key: string, content: seq<byte>, cs: nat, n: nat)
    requires n <= TWO_TO_THE_64
    ensures Unregistering(WriteChunks(key, content, cs, n))
  {
    if n > 0 {
      WriteChunksUnregistering(key, content, cs, n - 1);
    }
  }

  /** While dropping, the record outlives the entries it accounts for. */
  lemma DropPrefixRecorded(names: Naming, cs: nat, s: State, key: string, disk: Disk, k: nat)
    requires cs > 0 && Coherent(names, cs, s) && k <= |DropLog(s, key, cs, disk)|
    ensures Recorded(Replay(s, DropLog(s, key, cs, disk)[..k]), key)
  {
    var log := DropLog(s, key, cs, disk);
    if k == |log| {
      assert log[..k] == log;
      DropComplete(names, cs, s, key, disk);
    } else if key in s.objects {
      var chunks := DropChunks(key, DropCount(s, key, cs), disk);
      assert log[..k] == chunks[..k];
      DropChunksKeepsRecords(s, key, DropCount(s, key, cs), disk, k);
    } else {
      assert log[..k] == [];
    }
  }

  /** Up to and including the commit upstream, no chunk of the object is registered without a record. */
  lemma PreparationRecorded(names: Naming, cs: nat, s: State, p: Put, disk: Disk, k: nat)
    requires cs > 0 && Coherent(names, cs, s) && Honest(names, cs, p) && k <= |Preparation(s, cs, p, disk)|
    ensures Recorded(Replay(s, Preparation(s, cs, p, disk)[..k]), p.key)
  {
    var drop := DropLog(s, p.key, cs, disk);
    var rest := WriteChunks(p.key, p.ingested.accepted, cs, p.ingested.written) + CommitLog(p.key, p.upload.Effect());
    assert Preparation(s, cs, p, disk) == drop + rest;
    if k <= |drop| {
      assert Preparation(s, cs, p, disk)[..k] == drop[..k];
      DropPrefixRecorded(names, cs, s, p.key, disk, k);
    } else {
      WriteChunksUnregistering(p.key, p.ingested.accepted, cs, p.ingested.written);
      var more := rest[..k - |drop|];
      assert Preparation(s, cs, p, disk)[..k] == drop + more;
      AfterDropRecorded(names, cs, s, p.key, disk, more);
    }
  }

  lemma AfterDropRecorded(names: Naming, cs: nat, s: State, key: string, disk: Disk, more: Log)
    requires cs > 0 && Coherent(names, cs, s) && Unregistering(more)
    ensures Recorded(Replay(s, DropLog(s, key, cs, disk) + more), key)
  {
    var drop := DropLog(s, key, cs, disk);
    ReplayConcat(s, drop, more);
    DropComplete(names, cs, s, key, disk);
    StillNoEntries(Replay(s, drop), more, key);
  }

  lemma PutPrefixFrame(s: State, p: Put, cs: nat, disk: Disk, clock: Clock, k: nat)
    requires cs > 0 && p.ingested.written < TWO_TO_THE_64 && k <= |p.Log(s, cs, disk, clock)|
    ensures SameElsewhere(s, Replay(s, p.Log(s, cs, disk, clock)[..k]), p.key)
  {
    PutShape(s, p, cs, disk, clock);
    LogFrame(s, p.Log(s, cs, disk, clock)[..k], p.key);
  }

  lemma {:induction false} RegisterLength(key: string, len: nat, cs: nat, n: nat, clock: Clock)
    requires n <= TWO_TO_THE_64
    ensures |RegisterChunks(key, len, cs, n, clock)| == n
    ensures RecordFree(RegisterChunks(key, len, cs, n, clock))
    ensures n > 0 ==> RegisterChunks(key, len, cs, n, clock)[0].PutEntry?
                      && RegisterChunks(key, len, cs, n, clock)[0].id.key == key
    ensures forall w :: w in RegisterChunks(key, len, cs, n, clock) ==> w.PutEntry?
  {
    if n > 0 {
      RegisterLength(key, len, cs, n - 1, clock);
    }
  }

  lemma {:induction false} EntriesGrow(s: State, log: Log, id: ChunkId)
    requires forall w :: w in log ==> w.PutEntry?
    requires log != [] && log[0].PutEntry? && log[0].id == id
    ensures id in Replay(s, log).entries
  {
    var rest := log[..|log| - 1];
    assert log[|log| - 1] in log;
    if rest != [] {
      assert rest[0] == log[0];
      assert forall w :: w in rest ==> w in log;
      EntriesGrow(s, rest, id);
    }
  }

  /** Inside the registration window a chunk is registered and its object is not. */
  lemma RegistrationWindow(names: Naming, cs: nat, s: State, p: Put, disk: Disk, clock: Clock, k: nat)
    requires cs > 0 && Coherent(names, cs, s) && Honest(names, cs, p) && p.Succeeds()
    requires |Preparation(s, cs, p, disk)| < k < |p.Log(s, cs, disk, clock)|
    ensures !Recorded(Replay(s, p.Log(s, cs, disk, clock)[..k]), p.key)
  {
    var prep := Preparation(s, cs, p, disk);
    var u := Replay(s, prep);
    var n := p.ingested.written;
    var register := RegisterChunks(p.key, |p.ingested.accepted|, cs, n, clock);
    RegisterLength(p.key, |p.ingested.accepted|, cs, n, clock);
    var log := p.Log(s, cs, disk, clock);
    var some := register[..k - |prep|];
    assert log[..k] == prep + some;
    ReplayConcat(s, prep, some);
    PreparationEffect(names, cs, s, p, disk);
    RecordFreeKeeps(u, some);
    EntriesGrow(u, some, some[0].id);
  }

  /**
   * A process that dies during a successful PUT leaves a coherent cache exactly when it does not die between the
   * first chunk's registration and the object's. (Every crash point, these included, is crash-safe.)
   */
  lemma PutCrashPoints(names: Naming, cs: nat, s: State, p: Put, disk: Disk, clock: Clock, k: nat)
    requires cs > 0 && Coherent(names, cs, s) && Honest(names, cs, p) && p.Succeeds()
    requires k <= |p.Log(s, cs, disk, clock)|
    ensures CrashSafe(names, cs, Replay(s, p.Log(s, cs, disk, clock)[..k]))
    ensures Coherent(names, cs, Replay(s, p.Log(s, cs, disk, clock)[..k]))
            <==> !(|Preparation(s, cs, p, disk)| < k < |p.Log(s, cs, disk, clock)|)
  {
    var log := p.Log(s, cs, disk, clock);
    var t := Replay(s, log[..k]);
    PutDisciplined(names, cs, s, p, disk, clock);
    DisciplineSafe(names, cs, s, log, k);
    PutPrefixFrame(s, p, cs, disk, clock, k);
    if k <= |Preparation(s, cs, p, disk)| {
      assert log[..k] == Preparation(s, cs, p, disk)[..k];
      PreparationRecorded(names, cs, s, p, disk, k);
      ElsewhereCoherent(names, cs, s, t, p.key);
    } else if k < |log| {
      RegistrationWindow(names, cs, s, p, disk, clock, k);
    } else {
      assert log[..k] == log;
      PutOutcome(names, cs, s, p, disk, clock);
      ElsewhereCoherent(names, cs, s, t, p.key);
    }
  }

  /**
   * A PUT that fails (stream, disk or upload) can be cut anywhere and leaves a coherent cache.
   */
  lemma FailedPutCrashPoints(names: Naming, cs: nat, s: State, p: Put, disk: Disk, clock: Clock, k: nat)
    requires cs > 0 && Coherent(names, cs, s) && Honest(names, cs, p) && !p.Succeeds()
    requires k <= |p.Log(s, cs, disk, clock)|
    ensures Coherent(names, cs, Replay(s, p.Log(s, cs, disk, clock)[..k]))
  {
    var log := p.Log(s, cs, disk, clock);
    PutDisciplined(names, cs, s, p, disk, clock);
    DisciplineSafe(names, cs, s, log, k);
    PutPrefixFrame(s, p, cs, disk, clock, k);
    FailedPrefixRecorded(names, cs, s, p, disk, clock, k);
    ElsewhereCoherent(names, cs, s, Replay(s, log[..k]), p.key);
  }

  lemma FailedPrefixRecorded(names: Naming, cs: nat, s: State, p: Put, disk: Disk, clock: Clock, k: nat)
    requires cs > 0 && Coherent(names, cs, s) && Honest(names, cs, p) && !p.Succeeds()
    requires k <= |p.Log(s, cs, disk, clock)|
    ensures Recorded(Replay(s, p.Log(s, cs, disk, clock)[..k]), p.key)
  {
    var prep, finish := Preparation(s, cs, p, disk), Finish(cs, p, disk, clock);
    assert p.Log(s, cs, disk, clock) == prep + finish;
    if k <= |prep| {
      assert p.Log(s, cs, disk, clock)[..k] == prep[..k];
      PreparationRecorded(names, cs, s, p, disk, k);
    } else {
      var more := finish[..k - |prep|];
      assert p.Log(s, cs, disk, clock)[..k] == prep + more;
      ReplayConcat(s, prep, more);
      PreparationEffect(names, cs, s, p, disk);
      DeleteFilesUnregistering(p.key, p.ingested.written + 1, disk);
      StillNoEntries(Replay(s, prep), more, p.key);
    }
  }

  lemma {:induction false} DeleteFilesUnregistering(key: string, n: nat, disk: Disk)
    requires n <= TWO_TO_THE_64
    ensures Unregistering(DeleteFiles(key, n, disk))
  {
    if n > 0 {
      DeleteFilesUnregistering(key, n - 1, disk);
    }
  }

  // --- the retry ---

  /** The PUT sends, and its upload stores if anything, the body that upstream has already. */
  predicate Repeats(s: State, p: Put) {
    && p.key in s.upstream && p.ingested.accepted == s.upstream[p.key].content
    && (p.upload.Effect().Some? ==> p.upload.Effect().value.content == p.ingested.accepted)
  }

  /** Sending the same body again is safe in every crash-safe state, whatever is left over and however it ends. */
  lemma RepeatSafe(names: Naming, cs: nat, s: State, p: Put, disk: Disk)
    requires cs > 0 && CrashSafe(names, cs, s) && Honest(names, cs, p) && Repeats(s, p)
    ensures PutSafeThroughout(cs, s, p) && PutSafeAtEnd(cs, s, p, disk)
  {
    var o := s.upstream[p.key];
    forall id | id in s.entries && IsLeftover(s, p.key, id)
      ensures SurvivesThroughout(cs, s, p, id) && EndsWell(cs, s, p, disk, id)
    {
      FitsExactly(names, cs, o, id, s.entries[id], s.files);
      assert Fits(cs, o, id, s.entries[id], FileAt(s.files, id));
    }
  }

  /**
   * A PUT died at any write; the client sends the same body again and succeeds. The cache is then coherent, wherever
   * the first PUT died: a retry of the same body heals the registration window.
   */
  lemma RetryHeals(names: Naming, cs: nat, s: State, p: Put, disk: Disk, clock: Clock, k: nat, retry: Put, disk': Disk,
                   clock': Clock)
    requires cs > 0 && Coherent(names, cs, s) && Honest(names, cs, p) && p.Succeeds()
    requires k <= |p.Log(s, cs, disk, clock)|
    requires Honest(names, cs, retry) && retry.Succeeds() && retry.key == p.key
    requires retry.ingested.accepted == p.ingested.accepted
    ensures var t := Replay(s, p.Log(s, cs, disk, clock)[..k]);
            Coherent(names, cs, Replay(t, retry.Log(t, cs, disk', clock')))
  {
    var t := Replay(s, p.Log(s, cs, disk, clock)[..k]);
    var u := Replay(t, retry.Log(t, cs, disk', clock'));
    PutCrashPoints(names, cs, s, p, disk, clock, k);
    PutPrefixFrame(s, p, cs, disk, clock, k);
    RetrySafeAfter(names, cs, s, p, disk, clock, k, retry, disk');
    PutEndsExactly(names, cs, t, retry, disk', clock');
    PutOutcome(names, cs, t, retry, disk', clock');
    SameElsewhereTrans(s, t, u, p.key);
    ElsewhereCoherent(names, cs, s, u, p.key);
  }

  /** Before the registration window nothing is left over, and from there on upstream has the body. */
  lemma RetrySafeAfter(names: Naming, cs: nat, s: State, p: Put, disk: Disk, clock: Clock, k: nat, retry: Put, disk': Disk)
    requires cs > 0 && Coherent(names, cs, s) && Honest(names, cs, p) && p.Succeeds()
    requires k <= |p.Log(s, cs, disk, clock)|
    requires Honest(names, cs, retry) && retry.Succeeds() && retry.key == p.key
    requires retry.ingested.accepted == p.ingested.accepted
    ensures PutSafeAtEnd(cs, Replay(s, p.Log(s, cs, disk, clock)[..k]), retry, disk')
  {
    var t := Replay(s, p.Log(s, cs, disk, clock)[..k]);
    PutCrashPoints(names, cs, s, p, disk, clock, k);
    if |Preparation(s, cs, p, disk)| < k < |p.Log(s, cs, disk, clock)| {
      StoredInWindow(names, cs, s, p, disk, clock, k);
      RepeatSafe(names, cs, t, retry, disk');
    } else {
      assert Recorded(t, retry.key);
      RecordedHasNoLeftover(t, retry.key);
    }
  }

  lemma StoredInWindow(names: Naming, cs: nat, s: State, p: Put, disk: Disk, clock: Clock, k: nat)
    requires cs > 0 && CrashSafe(names, cs, s) && Honest(names, cs, p) && p.Succeeds()
    requires |Preparation(s, cs, p, disk)| < k < |p.Log(s, cs, disk, clock)|
    ensures Replay(s, p.Log(s, cs, disk, clock)[..k]).upstream == s.upstream[p.key := p.upload.stored]
  {
    var prep := Preparation(s, cs, p, disk);
    var some := SomeRegistered(s, p, cs, disk, clock, k);
    ReplayConcat(s, prep, some);
    PreparationEffect(names, cs, s, p, disk);
    QuietKeepsUpstream(Replay(s, prep), some);
  }

  /** The part of the log performed inside the window. */
  lemma SomeRegistered(s: State, p: Put, cs: nat, disk: Disk, clock: Clock, k: nat) returns (some: Log)
    requires cs > 0 && p.ingested.written < TWO_TO_THE_64 && p.Succeeds()
    requires |Preparation(s, cs, p, disk)| < k < |p.Log(s, cs, disk, clock)|
    ensures p.Log(s, cs, disk, clock)[..k] == Preparation(s, cs, p, disk) + some && Quiet(some)
  {
    var prep, finish := Preparation(s, cs, p, disk), Finish(cs, p, disk, clock);
    var register := RegisterChunks(p.key, |p.ingested.accepted|, cs, p.ingested.written, clock);
    PutInSteps(s, p, cs, disk, clock);
    RegisterLength(p.key, |p.ingested.accepted|, cs, p.ingested.written, clock);
    some := register[..k - |prep|];
    assert finish[..k - |prep|] == some;
    assert forall w :: w in some ==> w in register;
  }

  lemma SameElsewhereTrans(s: State, t: State, u: State, key: string)
    requires SameElsewhere(s, t, key) && SameElsewhere(t, u, key)
    ensures SameElsewhere(s, u, key)
  {
    AgreeTrans(s.upstream, t.upstream, u.upstream, key);
    AgreeTrans(s.objects, t.objects, u.objects, key);
    AgreeChunksTrans(s.entries, t.entries, u.entries, key);
    AgreeChunksTrans(s.files, t.files, u.files, key);
  }

  // --- what comes first ---

  /** A chunk file no entry accounts for. */
  predicate Orphan(s: State, id: ChunkId) {
    id in s.files && id !in s.entries
  }

  /** `t` has no orphan that `s` has not. */
  ghost predicate NoNewOrphans(s: State, t: State) {
    forall id :: Orphan(t, id) ==> Orphan(s, id)
  }

  /** Removing a chunk's file and then its entry, cut anywhere. */
  lemma RemovalOrder(s: State, log: Log, id: ChunkId, disk: Disk, k: nat)
    requires id !in disk.undeletable && NoNewOrphans(s, Replay(s, log))
    requires |log| <= k <= |log| + 2
    ensures var all := log + DeleteChunkFile(id, disk) + [DeleteEntry(id)];
            |all| == |log| + 2 && NoNewOrphans(s, Replay(s, all[..k]))
  {
    var all := log + DeleteChunkFile(id, disk) + [DeleteEntry(id)];
    if k == |log| {
      assert all[..k] == log;
    } else if k == |log| + 1 {
      assert all[..k] == log + [DeleteFile(id)];
      ReplayOne(s, log, DeleteFile(id));
    } else {
      assert all[..k] == log + [DeleteFile(id)] + [DeleteEntry(id)];
      ReplayOne(s, log, DeleteFile(id));
      ReplayOne(s, log + [DeleteFile(id)], DeleteEntry(id));
    }
  }

  lemma CutBefore(a: Log, b: Log, k: nat)
    requires k <= |a|
    ensures (a + b)[..k] == a[..k]
  {
  }

  /** Eviction on a disk that unlinks: wherever it is cut, every file it leaves is still accounted for. */
  lemma {:induction false} EvictionLeavesNoOrphan(s: State, victims: seq<ChunkId>, disk: Disk, k: nat)
    requires disk.undeletable == {} && k <= |EvictLog(victims, disk)|
    ensures NoNewOrphans(s, Replay(s, EvictLog(victims, disk)[..k]))
  {
    if victims != [] {
      var rest, id := EvictLog(victims[..|victims| - 1], disk), victims[|victims| - 1];
      Associative(rest, DeleteChunkFile(id, disk), [DeleteEntry(id)]);
      if k <= |rest| {
        CutBefore(rest, DeleteChunkFile(id, disk) + [DeleteEntry(id)], k);
        EvictionLeavesNoOrphan(s, victims[..|victims| - 1], disk, k);
      } else {
        assert rest[..|rest|] == rest;
        EvictionLeavesNoOrphan(s, victims[..|victims| - 1], disk, |rest|);
        RemovalOrder(s, rest, id, disk, k);
      }
    }
  }

  lemma {:induction false} DropChunksLeaveNoOrphan(s: State, key: string, n: nat, disk: Disk, k: nat)
    requires disk.undeletable == {} && n <= TWO_TO_THE_64 && k <= |DropChunks(key, n, disk)|
    ensures NoNewOrphans(s, Replay(s, DropChunks(key, n, disk)[..k]))
  {
    if n > 0 {
      var rest, id := DropChunks(key, n - 1, disk), ChunkId(key, n - 1);
      Associative(rest, DeleteChunkFile(id, disk), [DeleteEntry(id)]);
      if k <= |rest| {
        CutBefore(rest, DeleteChunkFile(id, disk) + [DeleteEntry(id)], k);
        DropChunksLeaveNoOrphan(s, key, n - 1, disk, k);
      } else {
        assert rest[..|rest|] == rest;
        DropChunksLeaveNoOrphan(s, key, n - 1, disk, |rest|);
        RemovalOrder(s, rest, id, disk, k);
      }
    }
  }

  /** The same for dropping an object, whose record goes last. */
  lemma DropLeavesNoOrphan(s: State, key: string, cs: nat, disk: Disk, k: nat)
    requires cs > 0 && disk.undeletable == {} && k <= |DropLog(s, key, cs, disk)|
    ensures var t := Replay(s, DropLog(s, key, cs, disk)[..k]);
            NoNewOrphans(s, t) && (k < |DropLog(s, key, cs, disk)| ==> t.objects == s.objects)
  {
    var n := DropCount(s, key, cs);
    var chunks := if key in s.objects then DropChunks(key, n, disk) else [];
    assert chunks == DropChunks(key, n, disk);
    DropChunksLeaveNoOrphan(s, key, n, disk, Min(k, |chunks|));
    if k <= |chunks| {
      CutBefore(chunks, [DeleteObject(key)], k);
      DropChunksKeepsRecords(s, key, n, disk, k);
    } else {
      assert chunks[..|chunks|] == chunks;
      assert DropLog(s, key, cs, disk)[..k] == chunks + [DeleteObject(key)];
      ReplayOne(s, chunks, DeleteObject(key));
    }
  }

  /** A registration never runs ahead of its files: from the end of the upload on, no chunk lacks its file. */
  lemma RegistrationBacked(names: Naming, cs: nat, s: State, p: Put, disk: Disk, clock: Clock, k: nat)
    requires cs > 0 && Coherent(names, cs, s) && Backed(s) && Honest(names, cs, p) && p.Succeeds()
    requires |Preparation(s, cs, p, disk)| <= k <= |p.Log(s, cs, disk, clock)|
    ensures Backed(Replay(s, p.Log(s, cs, disk, clock)[..k]))
  {
    var prep, finish := Preparation(s, cs, p, disk), Finish(cs, p, disk, clock);
    var n := k - |prep|;
    PutInSteps(s, p, cs, disk, clock);
    assert p.Log(s, cs, disk, clock)[..k] == prep + finish[..n];
    ReplayConcat(s, prep, finish[..n]);
    PreparationEffect(names, cs, s, p, disk);
    PreparedBacked(s, Uploaded(s, p, cs, disk), p, cs);
    RegisterLength(p.key, |p.ingested.accepted|, cs, p.ingested.written, clock);
    FinishBacked(Uploaded(s, p, cs, disk), p, cs, disk, clock, n);
  }

  lemma PreparedBacked(s: State, u: State, p: Put, cs: nat)
    requires cs > 0 && Backed(s) && LeftoversAndFiles(s, u, cs, p) && SameElsewhere(s, u, p.key)
    requires NoEntries(u, p.key)
    ensures Backed(u)
  {
    forall id | id in u.entries
      ensures id in u.files
    {
      assert id in s.entries && id in s.files;
    }
  }

  lemma FinishBacked(u: State, p: Put, cs: nat, disk: Disk, clock: Clock, n: nat)
    requires cs > 0 && p.Succeeds() && p.ingested.written < TWO_TO_THE_64 && Backed(u)
    requires forall id: ChunkId :: id.key == p.key && id.idx < p.ingested.written ==> id in u.files
    requires n <= |Finish(cs, p, disk, clock)|
    ensures Backed(Replay(u, Finish(cs, p, disk, clock)[..n]))
  {
    var len, written := |p.ingested.accepted|, p.ingested.written;
    var register := RegisterChunks(p.key, len, cs, written, clock);
    RegisterLength(p.key, len, cs, written, clock);
    if n <= written {
      CutBefore(register, [PutObject(p.key, PutRecord(p.declared, p.contentType, p.upload.stored, clock(written)))], n);
      RegisterCut(p.key, len, cs, written, clock, n);
      RegisterEffect(u, p.key, len, cs, n, clock);
      PutIndexedAt(u.entries, p.key, n, EntryOf(len, cs, clock));
    } else {
      assert Finish(cs, p, disk, clock)[..n] == Finish(cs, p, disk, clock);
      FinishReplayed(u, p, cs, disk, clock);
      PutIndexedAt(u.entries, p.key, written, EntryOf(len, cs, clock));
    }
  }

  /** A registration cut short is a shorter registration. */
  lemma {:induction false} RegisterCut(key: string, len: nat, cs: nat, n: nat, clock: Clock, k: nat)
    requires k <= n <= TWO_TO_THE_64
    ensures |RegisterChunks(key, len, cs, n, clock)| == n
    ensures RegisterChunks(key, len, cs, n, clock)[..k] == RegisterChunks(key, len, cs, k, clock)
  {
    RegisterLength(key, len, cs, n, clock);
    RegisterLength(key, len, cs, k, clock);
    if k < n {
      RegisterCut(key, len, cs, n - 1, clock, k);
    }
  }

  /** DELETE and COPY change upstream before they touch the cache: cut before that, nothing has changed. */
  lemma UpstreamFirst(s: State, cs: nat, e: Event, k: nat)
    requires cs > 0 && k <= |LogOf(s, cs, e)|
    requires (e.op.DeleteReq? && e.op.accepted) || (e.op.CopyReq? && e.op.created.Some?)
    ensures var t := Replay(s, LogOf(s, cs, e)[..k]);
            if k == 0 then t == s else t.upstream == PlainStep(s.upstream, e.op)
  {
    var log := LogOf(s, cs, e);
    if k == 0 {
      assert log[..0] == [];
    } else {
      assert log[..k] == [log[0]] + log[1..k];
      ReplayConcat(s, [log[0]], log[1..k]);
      OneReplay(s, log[0]);
      QuietAfterFirst(s, cs, e);
      assert forall w :: w in log[1..k] ==> w in log[1..];
      QuietKeepsUpstream(Replay(s, [log[0]]), log[1..k]);
    }
  }

  lemma QuietAfterFirst(s: State, cs: nat, e: Event)
    requires cs > 0 && ((e.op.DeleteReq? && e.op.accepted) || (e.op.CopyReq? && e.op.created.Some?))
    ensures var log := LogOf(s, cs, e);
            log != [] && Quiet(log[1..]) && Apply(s, log[0]).upstream == PlainStep(s.upstream, e.op)
  {
    var log := LogOf(s, cs, e);
    if e.op.DeleteReq? {
      var u := Apply(s, Remove(e.op.key));
      assert log[1..] == DropLog(u, e.op.key, cs, e.disk);
      DropLocal(u, e.op.key, cs, e.disk);
    } else {
      var u := Apply(s, Commit(e.op.dest, e.op.created.value));
      assert log[1..] == CopyLog(u, e.op.src, e.op.dest, cs);
      if e.op.src in u.objects {
        CopyLocal(u, e.op.src, e.op.dest, NumChunks(u.objects[e.op.src].contentLength, cs));
      }
    }
  }
}

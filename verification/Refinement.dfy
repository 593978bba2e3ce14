/** The main theorems about whole runs. */
module Refinement {
  import opened Basics
  import opened ChunkKey
  import opened Blocks
  import opened CacheModel
  import opened Coherence
  import opened Operations
  import opened Reading
  import opened ByteRange
  import opened PutOperation
  import opened Copying
  import opened Runs
  import Splitter

  // --- the shape of logs: which object they are about, and where they write upstream ---

  /** No write at the upstream store. */
  ghost predicate Quiet(log: Log) {
    forall w :: w in log ==> !w.Commit? && !w.Remove?
  }

  /** A log that stays local: about one object and quiet. */
  ghost predicate Local(log: Log, key: string) {
    About(log, key) && Quiet(log)
  }

  lemma {:induction false} DropChunksLocal(key: string, n: nat, disk: Disk)
    requires n <= TWO_TO_THE_64
    ensures Local(DropChunks(key, n, disk), key)
  {
    if n > 0 {
      DropChunksLocal(key, n - 1, disk);
    }
  }

  lemma DropLocal(s: State, key: string, cs: nat, disk: Disk)
    requires cs > 0
    ensures Local(DropLog(s, key, cs, disk), key)
  {
    DropChunksLocal(key, DropCount(s, key, cs), disk);
  }

  lemma {:induction false} WriteLocal(key: string, content: seq<byte>, cs: nat, n: nat)
    requires n <= TWO_TO_THE_64
    ensures Local(WriteChunks(key, content, cs, n), key)
  {
    if n > 0 {
      WriteLocal(key, content, cs, n - 1);
    }
  }

  lemma {:induction false} DeleteFilesLocal(key: string, n: nat, disk: Disk)
    requires n <= TWO_TO_THE_64
    ensures Local(DeleteFiles(key, n, disk), key)
  {
    if n > 0 {
      DeleteFilesLocal(key, n - 1, disk);
    }
  }

  lemma {:induction false} RegisterLocal(key: string, len: nat, cs: nat, n: nat, clock: Clock)
    requires n <= TWO_TO_THE_64
    ensures Local(RegisterChunks(key, len, cs, n, clock), key)
  {
    if n > 0 {
      RegisterLocal(key, len, cs, n - 1, clock);
    }
  }

  lemma {:induction false} TouchLocal(s: State, key: string, begin: nat, limit: nat, clock: Clock)
    requires begin <= limit <= TWO_TO_THE_64
    ensures Local(TouchLog(s, key, begin, limit, clock), key)
    decreases limit
  {
    if begin < limit {
      TouchLocal(s, key, begin, limit - 1, clock);
    }
  }

  lemma {:induction false} CopyLocal(s: State, src: string, dest: string, n: nat)
    requires n <= TWO_TO_THE_64
    ensures Local(CopyChunks(s, src, dest, n), dest)
  {
    if n > 0 {
      CopyLocal(s, src, dest, n - 1);
    }
  }

  lemma {:induction false} EvictQuiet(victims: seq<ChunkId>, disk: Disk)
    ensures Quiet(EvictLog(victims, disk))
  {
    if victims != [] {
      EvictQuiet(victims[..|victims| - 1], disk);
    }
  }

  lemma {:induction false} QuietKeepsUpstream(s: State, log: Log)
    requires Quiet(log)
    ensures Replay(s, log).upstream == s.upstream
  {
    if log != [] {
      QuietKeepsUpstream(s, log[..|log| - 1]);
      assert log[|log| - 1] in log;
    }
  }

  lemma RefreshLocal(s: State, key: string, cs: nat, disk: Disk)
    requires cs > 0 && key in s.upstream
    ensures Local(RefreshLog(s, key, cs, disk), key)
  {
    DropLocal(s, key, cs, disk);
  }

  lemma GetLocal(s: State, key: string, range: Option<string>, cs: nat, disk: Disk, clock: Clock)
    requires cs > 0 && key in s.upstream
    ensures Local(GetLog(s, key, range, cs, disk, clock), key)
  {
    var t := Replay(s, RefreshLog(s, key, cs, disk));
    RefreshLocal(s, key, cs, disk);
    if key in t.upstream {
      var w := Window(range, |s.upstream[key].content|);
      var size := |t.upstream[key].content|;
      RefreshLocal(t, key, cs, disk);
      var u := Replay(t, RefreshLog(t, key, cs, disk));
      TouchLocal(u, key, ReadFrom(size, cs, w.0, w.1), ReadTo(size, cs, w.0, w.1), clock);
    }
  }

  /** A PUT's log: local work, the commit of the upload, local work. */
  lemma PutShape(s: State, p: Put, cs: nat, disk: Disk, clock: Clock)
    requires cs > 0 && p.ingested.written < TWO_TO_THE_64
    ensures var pre := DropLog(s, p.key, cs, disk) + WriteChunks(p.key, p.ingested.accepted, cs, p.ingested.written);
            var post := Finish(cs, p, disk, clock);
            && Local(pre, p.key) && Local(post, p.key)
            && p.Log(s, cs, disk, clock) == pre + CommitLog(p.key, p.upload.Effect()) + post
  {
    DropLocal(s, p.key, cs, disk);
    WriteLocal(p.key, p.ingested.accepted, cs, p.ingested.written);
    DeleteFilesLocal(p.key, p.ingested.written + 1, disk);
    RegisterLocal(p.key, |p.ingested.accepted|, cs, p.ingested.written, clock);
  }

  // --- upstream ---

  /** A crashed operation has had its effect upstream, or none; a finished one has had it. */
  predicate PlainNext(up: map<string, Object>, e: Event, up': map<string, Object>) {
    || up' == PlainStep(up, e.op)
    || (e.crashedAfter.Some? && up' == up)
  }

  /** How often a log writes at the upstream store. */
  function UpstreamWrites(log: Log): nat {
    if log == [] then 0
    else UpstreamWrites(log[..|log| - 1]) + (if log[|log| - 1].Commit? || log[|log| - 1].Remove? then 1 else 0)
  }

  lemma {:induction false} UpstreamWritesConcat(a: Log, b: Log)
    ensures UpstreamWrites(a + b) == UpstreamWrites(a) + UpstreamWrites(b)
  {
    if b == [] {
      assert a + b == a;
    } else {
      assert (a + b)[..|a + b| - 1] == a + b[..|b| - 1];
      UpstreamWritesConcat(a, b[..|b| - 1]);
    }
  }

  lemma {:induction false} QuietWritesNothing(log: Log)
    ensures Quiet(log) <==> UpstreamWrites(log) == 0
  {
    if log != [] {
      var rest := log[..|log| - 1];
      QuietWritesNothing(rest);
      assert forall w :: w in log <==> w in rest || w == log[|log| - 1];
    }
  }

  /** Cutting a log with at most one upstream write leaves upstream as before or as after. */
  lemma {:induction false} OneUpstreamWrite(s: State, log: Log, k: nat)
    requires UpstreamWrites(log) <= 1 && k <= |log|
    ensures Replay(s, log[..k]).upstream == s.upstream || Replay(s, log[..k]).upstream == Replay(s, log).upstream
  {
    if k < |log| {
      var rest := log[..|log| - 1];
      assert rest[..k] == log[..k];
      if log[|log| - 1].Commit? || log[|log| - 1].Remove? {
        QuietWritesNothing(rest);
        QuietKeepsUpstream(s, rest[..k]);
      } else {
        OneUpstreamWrite(s, rest, k);
      }
    } else {
      assert log[..k] == log;
    }
  }

  /** Quiet work, at most one upstream write, quiet work. */
  lemma ShapedReplay(s: State, pre: Log, middle: Log, post: Log)
    requires Quiet(pre) && Quiet(post) && |middle| <= 1
    ensures UpstreamWrites(pre + middle + post) <= 1
    ensures Replay(s, pre + middle + post).upstream == Replay(Replay(s, pre), middle).upstream
  {
    QuietWritesNothing(pre);
    QuietWritesNothing(post);
    UpstreamWritesConcat(pre, middle);
    UpstreamWritesConcat(pre + middle, post);
    ReplayConcat(s, pre, middle);
    ReplayConcat(s, pre + middle, post);
    QuietKeepsUpstream(Replay(s, pre + middle), post);
  }

  /** Any prefix of such work has had its upstream effect, or none. */
  lemma ShapedPrefix(s: State, log: Log, pre: Log, middle: Log, post: Log, k: nat)
    requires Quiet(pre) && Quiet(post) && |middle| <= 1 && log == pre + middle + post && k <= |log|
    ensures Replay(s, log).upstream == Replay(Replay(s, pre), middle).upstream
    ensures Replay(s, log[..k]).upstream == s.upstream || Replay(s, log[..k]).upstream == Replay(s, log).upstream
  {
    ShapedReplay(s, pre, middle, post);
    OneUpstreamWrite(s, log, k);
  }

  lemma ShapedNext(s: State, e: Event, log: Log, pre: Log, middle: Log, post: Log, performed: Log)
    requires Quiet(pre) && Quiet(post) && |middle| <= 1 && log == pre + middle + post
    requires performed <= log && (e.crashedAfter.None? ==> performed == log)
    requires Replay(Replay(s, pre), middle).upstream == PlainStep(s.upstream, e.op)
    ensures PlainNext(s.upstream, e, Replay(s, performed).upstream)
  {
    ShapedPrefix(s, log, pre, middle, post, |performed|);
    assert log[..|performed|] == performed;
  }

  lemma ShapedStep(s: State, cs: nat, e: Event, pre: Log, middle: Log, post: Log)
    requires cs > 0
    requires Quiet(pre) && Quiet(post) && |middle| <= 1
    requires LogOf(s, cs, e) == pre + middle + post
    requires Replay(Replay(s, pre), middle).upstream == PlainStep(s.upstream, e.op)
    ensures PlainNext(s.upstream, e, Step(s, cs, e).upstream)
  {
    PerformedPrefix(s, cs, e);
    ShapedNext(s, e, LogOf(s, cs, e), pre, middle, post, Performed(s, cs, e));
  }

  lemma OneReplay(s: State, w: Write)
    ensures Replay(s, [w]) == Apply(s, w)
  {
    ReplayOne(s, [], w);
    assert [] + [w] == [w];
  }

  lemma QuietStep(s: State, cs: nat, e: Event)
    requires cs > 0 && Quiet(LogOf(s, cs, e)) && PlainStep(s.upstream, e.op) == s.upstream
    ensures PlainNext(s.upstream, e, Step(s, cs, e).upstream)
  {
    var log := LogOf(s, cs, e);
    assert log == log + [] + [];
    QuietKeepsUpstream(s, log);
    ShapedStep(s, cs, e, log, [], []);
  }

  lemma PutStep(s: State, cs: nat, e: Event)
    requires cs > 0 && e.op.PutReq?
    ensures PlainNext(s.upstream, e, Step(s, cs, e).upstream)
  {
    var p := AsPut(e.op, cs, e.disk);
    PutShape(s, p, cs, e.disk, e.clock);
    var pre := DropLog(s, p.key, cs, e.disk) + WriteChunks(p.key, p.ingested.accepted, cs, p.ingested.written);
    QuietKeepsUpstream(s, pre);
    if p.upload.Effect().Some? {
      OneReplay(Replay(s, pre), Commit(p.key, p.upload.Effect().value));
    }
    ShapedStep(s, cs, e, pre, CommitLog(p.key, p.upload.Effect()), Finish(cs, p, e.disk, e.clock));
  }

  lemma WriteFirstStep(s: State, cs: nat, e: Event, w: Write, post: Log)
    requires cs > 0 && LogOf(s, cs, e) == [w] + post && Quiet(post)
    requires PlainStep(s.upstream, e.op) == Apply(s, w).upstream
    ensures PlainNext(s.upstream, e, Step(s, cs, e).upstream)
  {
    OneReplay(s, w);
    assert LogOf(s, cs, e) == [] + [w] + post;
    ShapedStep(s, cs, e, [], [w], post);
  }

  lemma ReadStep(s: State, cs: nat, e: Event)
    requires cs > 0 && (e.op.GetReq? || e.op.HeadReq?)
    ensures PlainNext(s.upstream, e, Step(s, cs, e).upstream)
  {
    if e.op.key in s.upstream {
      if e.op.GetReq? {
        GetLocal(s, e.op.key, e.op.range, cs, e.disk, e.clock);
      } else {
        RefreshLocal(s, e.op.key, cs, e.disk);
      }
    }
    QuietStep(s, cs, e);
  }

  lemma DeleteStep(s: State, cs: nat, e: Event)
    requires cs > 0 && e.op.DeleteReq?
    ensures PlainNext(s.upstream, e, Step(s, cs, e).upstream)
  {
    if e.op.accepted {
      var u := Apply(s, Remove(e.op.key));
      DropLocal(u, e.op.key, cs, e.disk);
      WriteFirstStep(s, cs, e, Remove(e.op.key), DropLog(u, e.op.key, cs, e.disk));
    } else {
      QuietStep(s, cs, e);
    }
  }

  lemma CopyUpstreamStep(s: State, cs: nat, e: Event)
    requires cs > 0 && e.op.CopyReq?
    ensures PlainNext(s.upstream, e, Step(s, cs, e).upstream)
  {
    if e.op.created.None? {
      QuietStep(s, cs, e);
    } else {
      var w := Commit(e.op.dest, e.op.created.value);
      var u := Apply(s, w);
      if e.op.src in u.objects {
        CopyLocal(u, e.op.src, e.op.dest, NumChunks(u.objects[e.op.src].contentLength, cs));
      }
      WriteFirstStep(s, cs, e, w, CopyLog(u, e.op.src, e.op.dest, cs));
    }
  }

  /** Upstream sees of a cached run what it would see of an uncached one. */
  lemma UpstreamStep(s: State, cs: nat, e: Event)
    requires cs > 0
    ensures PlainNext(s.upstream, e, Step(s, cs, e).upstream)
  {
    match e.op {
      case PutReq(_, _, _, _, _, _) => PutStep(s, cs, e);
      case GetReq(_, _) => ReadStep(s, cs, e);
      case HeadReq(_) => ReadStep(s, cs, e);
      case DeleteReq(_, _) => DeleteStep(s, cs, e);
      case CopyReq(_, _, _) => CopyUpstreamStep(s, cs, e);
      case Evict(victims) =>
        EvictQuiet(victims, e.disk);
        QuietStep(s, cs, e);
      case OutOfBand(key, now) =>
        var w := if now.None? then Remove(key) else Commit(key, now.value);
        assert LogOf(s, cs, e) == [w] + [];
        WriteFirstStep(s, cs, e, w, []);
      case LoseFile(_) => QuietStep(s, cs, e);
    }
  }

  // --- between operations ---

  /** An operation on one object is coherent if it leaves that object recorded or without entries. */
  lemma ElsewhereCoherent(names: Naming, cs: nat, s: State, t: State, key: string)
    requires cs > 0 && Coherent(names, cs, s) && CrashSafe(names, cs, t)
    requires SameElsewhere(s, t, key) && Recorded(t, key)
    ensures Coherent(names, cs, t)
  {
    forall id | id in t.entries
      ensures id.key in t.objects
    {
      if id.key != key {
        assert id in s.entries;
        assert id.key in s.objects;
      }
    }
  }

  lemma ElsewhereBacked(s: State, t: State, key: string)
    requires SameElsewhere(s, t, key) && Backed(s)
    requires forall id :: id in t.entries && id.key == key ==> id in t.files
    ensures Backed(t)
  {
    forall id | id in t.entries
      ensures id in t.files
    {
      if id.key != key {
        assert id in s.entries && id in s.files;
      }
    }
  }

  /** The chunks of one object are all backed by files. */
  ghost predicate KeyBacked(s: State, key: string) {
    forall id :: id in s.entries && id.key == key ==> id in s.files
  }

  /** The object an operation is about, when it is about one. */
  function SubjectOf(op: Op): Option<string> {
    match op
    case PutReq(key, _, _, _, _, _) => Some(key)
    case GetReq(key, _) => Some(key)
    case HeadReq(key) => Some(key)
    case DeleteReq(key, _) => Some(key)
    case CopyReq(_, dest, _) => Some(dest)
    case Evict(_) => None
    case OutOfBand(key, _) => Some(key)
    case LoseFile(id) => Some(id.key)
  }

  /** An operation touches its own object only. */
  lemma OpAbout(s: State, cs: nat, e: Event)
    requires cs > 0 && SubjectOf(e.op).Some?
    ensures About(LogOf(s, cs, e), SubjectOf(e.op).value)
  {
    match e.op {
      case PutReq(_, _, _, _, _, _) => PutShape(s, AsPut(e.op, cs, e.disk), cs, e.disk, e.clock);
      case GetReq(key, range) =>
        if key in s.upstream {
          GetLocal(s, key, range, cs, e.disk, e.clock);
        }
      case HeadReq(key) =>
        if key in s.upstream {
          RefreshLocal(s, key, cs, e.disk);
        }
      case DeleteReq(key, _) => DropLocal(Apply(s, Remove(key)), key, cs, e.disk);
      case CopyReq(src, dest, created) =>
        if created.Some? {
          var u := Apply(s, Commit(dest, created.value));
          if src in u.objects {
            CopyLocal(u, src, dest, NumChunks(u.objects[src].contentLength, cs));
          }
        }
      case OutOfBand(_, _) =>
      case LoseFile(_) =>
    }
  }

  /** An object is settled: recorded or without entries, and its entries backed by files if `backed`. */
  ghost predicate Settled(s: State, key: string, backed: bool) {
    Recorded(s, key) && (backed ==> KeyBacked(s, key))
  }

  lemma RefreshSettles(names: Naming, cs: nat, s: State, key: string, disk: Disk)
    requires cs > 0 && CrashSafe(names, cs, s) && key in s.upstream
    ensures var t := Replay(s, RefreshLog(s, key, cs, disk));
            key in t.objects && (Backed(s) ==> Backed(t))
  {
    RefreshDisciplined(names, cs, s, key, disk);
    if Backed(s) {
      RefreshBacked(names, cs, s, key, disk);
    }
  }

  lemma GetSettles(names: Naming, cs: nat, s: State, key: string, range: Option<string>, disk: Disk, clock: Clock)
    requires cs > 0 && CrashSafe(names, cs, s) && key in s.upstream
    ensures Settled(Replay(s, GetLog(s, key, range, cs, disk, clock)), key, Backed(s))
  {
    GetDisciplined(names, cs, s, key, range, disk, clock);
    RefreshSettles(names, cs, s, key, disk);
  }

  lemma PutSettles(names: Naming, cs: nat, s: State, p: Put, disk: Disk, clock: Clock)
    requires cs > 0 && CrashSafe(names, cs, s) && Recorded(s, p.key) && Honest(names, cs, p)
    ensures Settled(Replay(s, p.Log(s, cs, disk, clock)), p.key, true)
  {
    PutOutcome(names, cs, s, p, disk, clock);
  }

  /** A finished request leaves its own object recorded or without entries, and backed if it was. */
  lemma RequestSettles(names: Naming, cs: nat, s: State, e: Event)
    requires cs > 0 && Coherent(names, cs, s) && Legal(names, cs, s, e)
    requires e.op.PutReq? || e.op.GetReq? || e.op.HeadReq?
    ensures Settled(Replay(s, LogOf(s, cs, e)), e.op.key, Backed(s))
  {
    var key := e.op.key;
    if e.op.PutReq? {
      AsPutHonest(names, cs, s, e.op, e.disk);
      PutSettles(names, cs, s, AsPut(e.op, cs, e.disk), e.disk, e.clock);
    } else if key in s.upstream {
      if e.op.GetReq? {
        GetSettles(names, cs, s, key, e.op.range, e.disk, e.clock);
      } else {
        RefreshSettles(names, cs, s, key, e.disk);
      }
    }
  }

  /** A finished operation leaves its own object recorded or without entries, and backed if it was. */
  lemma SubjectSettled(names: Naming, cs: nat, s: State, e: Event)
    requires cs > 0 && Coherent(names, cs, s) && Legal(names, cs, s, e) && e.crashedAfter.None?
    requires SubjectOf(e.op).Some? && !e.op.CopyReq?
    ensures Settled(Step(s, cs, e), SubjectOf(e.op).value, Backed(s) && !e.op.LoseFile?)
  {
    PerformedPrefix(s, cs, e);
    match e.op {
      case PutReq(_, _, _, _, _, _) => RequestSettles(names, cs, s, e);
      case GetReq(_, _) => RequestSettles(names, cs, s, e);
      case HeadReq(_) => RequestSettles(names, cs, s, e);
      case DeleteReq(key, accepted) =>
        if accepted {
          DeleteDisciplined(names, cs, s, key, e.disk);
        }
      case OutOfBand(key, now) =>
        OneReplay(s, if now.None? then Remove(key) else Commit(key, now.value));
      case LoseFile(id) => OneReplay(s, DeleteFile(id));
    }
  }

  /** Finished operations keep coherence, and nothing but a lost file takes a registered chunk's file away. */
  lemma CoherentStep(names: Naming, cs: nat, s: State, e: Event)
    requires cs > 0 && Coherent(names, cs, s) && Legal(names, cs, s, e) && e.crashedAfter.None?
    ensures Coherent(names, cs, Step(s, cs, e))
    ensures Backed(s) && !e.op.LoseFile? ==> Backed(Step(s, cs, e))
  {
    var t := Step(s, cs, e);
    StepSafe(names, cs, s, e);
    match SubjectOf(e.op) {
      case None => EvictStep(names, cs, s, e);
      case Some(key) =>
        if e.op.CopyReq? {
          CopyStep(names, cs, s, e);
        } else {
          OpAbout(s, cs, e);
          LogFrame(s, LogOf(s, cs, e), key);
          SubjectSettled(names, cs, s, e);
          ElsewhereCoherent(names, cs, s, t, key);
          if Backed(s) && !e.op.LoseFile? {
            ElsewhereBacked(s, t, key);
          }
        }
    }
  }

  lemma EvictStep(names: Naming, cs: nat, s: State, e: Event)
    requires cs > 0 && Coherent(names, cs, s) && e.op.Evict? && e.crashedAfter.None?
    requires CrashSafe(names, cs, Step(s, cs, e))
    ensures Coherent(names, cs, Step(s, cs, e))
    ensures Backed(s) ==> Backed(Step(s, cs, e))
  {
    var t := Step(s, cs, e);
    forall id | id in t.entries
      ensures id.key in t.objects && (Backed(s) ==> id in t.files)
    {
      EvictEffect(s, e.op.victims, e.disk, id);
      assert id in s.entries && id.key in s.objects;
    }
  }

  /** A copy leaves records where there were records, and files for all its entries. */
  lemma CopyLogSettles(s: State, cs: nat, src: string, dest: string, o: Object)
    requires cs > 0 && forall id :: id in s.entries ==> id.key in s.objects
    ensures var t := Replay(s, AcceptedCopy(s, src, dest, o, cs));
            && (forall id :: id in t.entries ==> id.key in t.objects)
            && (Backed(s) ==> Backed(t))
  {
    AcceptedCopyEffect(s, src, dest, o, cs);
    if src in s.objects {
      CopyResult(Apply(s, Commit(dest, o)), src, dest, cs);
    }
  }

  lemma CopyStep(names: Naming, cs: nat, s: State, e: Event)
    requires cs > 0 && Coherent(names, cs, s) && Legal(names, cs, s, e) && e.op.CopyReq? && e.crashedAfter.None?
    ensures Coherent(names, cs, Step(s, cs, e))
    ensures Backed(s) ==> Backed(Step(s, cs, e))
  {
    StepSafe(names, cs, s, e);
    PerformedPrefix(s, cs, e);
    if e.op.created.Some? {
      CopyLogSettles(s, cs, e.op.src, e.op.dest, e.op.created.value);
    }
  }

  // --- runs ---

  /** The state after the first `i` events. */
  function StateAt(s: State, cs: nat, run: seq<Event>, i: nat): State
    requires cs > 0 && i <= |run|
    decreases i
  {
    if i == 0 then s else StateAt(Step(s, cs, run[0]), cs, run[1..], i - 1)
  }

  /** Every event is legal in the state it meets. */
  ghost predicate LegalRun(names: Naming, cs: nat, s: State, run: seq<Event>)
    requires cs > 0
    decreases |run|
  {
    run == [] || (Legal(names, cs, s, run[0]) && LegalRun(names, cs, Step(s, cs, run[0]), run[1..]))
  }

  /** What one event must look like to an observer of the plain store. */
  ghost predicate Refines(names: Naming, cs: nat, s: State, e: Event)
    requires cs > 0
  {
    && CrashSafe(names, cs, s)
    && CrashSafe(names, cs, Step(s, cs, e))
    && PlainNext(s.upstream, e, Step(s, cs, e).upstream)
    && Answers(ReplyOf(s, cs, e), s.upstream, e)
  }

  /**
   * Refinement of the plain upstream store, crashes included. At every event of every legal run the state is
   * crash-safe, upstream evolves as it would without a cache, and a GET is answered with upstream's bytes at that
   * moment, or with a prefix of them followed by a stream error.
   */
  lemma {:induction false} RunRefinesUpstream(names: Naming, cs: nat, s: State, run: seq<Event>, i: nat)
    requires cs > 0 && CrashSafe(names, cs, s) && LegalRun(names, cs, s, run) && i < |run|
    ensures Refines(names, cs, StateAt(s, cs, run, i), run[i])
    decreases i
  {
    EventRefines(names, cs, s, run[0]);
    if i > 0 {
      RunRefinesUpstream(names, cs, Step(s, cs, run[0]), run[1..], i - 1);
    }
  }

  lemma EventRefines(names: Naming, cs: nat, s: State, e: Event)
    requires cs > 0 && CrashSafe(names, cs, s) && Legal(names, cs, s, e)
    ensures Refines(names, cs, s, e)
  {
    StepSafe(names, cs, s, e);
    UpstreamStep(s, cs, e);
    ReplyRight(names, cs, s, e);
  }

  /** The environment keeps its promises throughout. */
  ghost predicate HonestRun(names: Naming, cs: nat, s: State, run: seq<Event>)
    requires cs > 0
    decreases |run|
  {
    run == [] || (EnvironmentHonest(names, s, run[0].op) && HonestRun(names, cs, Step(s, cs, run[0]), run[1..]))
  }

  /** After every event, and at every point where an event that is cut may be cut, the state is crash-safe. */
  ghost predicate SafeRun(names: Naming, cs: nat, s: State, run: seq<Event>)
    requires cs > 0
    decreases |run|
  {
    run == [] ||
    (&& (if run[0].crashedAfter.None? then CrashSafe(names, cs, Step(s, cs, run[0]))
         else SafeThroughout(names, cs, s, LogOf(s, cs, run[0])))
     && SafeRun(names, cs, Step(s, cs, run[0]), run[1..]))
  }

  /** One event of a run. */
  lemma EventLegalExactly(names: Naming, cs: nat, s: State, e: Event)
    requires cs > 0 && CrashSafe(names, cs, s) && EnvironmentHonest(names, s, e.op)
    ensures Legal(names, cs, s, e) <==>
              if e.crashedAfter.None? then CrashSafe(names, cs, Step(s, cs, e))
              else SafeThroughout(names, cs, s, LogOf(s, cs, e))
  {
    GuardedExactly(names, cs, s, e);
    PerformedPrefix(s, cs, e);
  }

  /** Under an honest environment the legal runs are exactly the runs that stay crash-safe. */
  lemma {:induction false} LegalRunsExactly(names: Naming, cs: nat, s: State, run: seq<Event>)
    requires cs > 0 && CrashSafe(names, cs, s) && HonestRun(names, cs, s, run)
    ensures LegalRun(names, cs, s, run) <==> SafeRun(names, cs, s, run)
    decreases |run|
  {
    if run != [] {
      EventLegalExactly(names, cs, s, run[0]);
      if Legal(names, cs, s, run[0]) {
        StepSafe(names, cs, s, run[0]);
        LegalRunsExactly(names, cs, Step(s, cs, run[0]), run[1..]);
      }
    }
  }

  /** Nothing crashes and the disk loses no file. */
  ghost predicate Calm(run: seq<Event>) {
    forall i :: 0 <= i < |run| ==> run[i].crashedAfter.None? && !run[i].op.LoseFile?
  }

  lemma CalmTail(run: seq<Event>)
    requires run != [] && Calm(run)
    ensures run[0].crashedAfter.None? && !run[0].op.LoseFile? && Calm(run[1..])
  {
  }

  /** Coherent, with every registered chunk on disk. */
  ghost predicate Steady(names: Naming, cs: nat, s: State)
    requires cs > 0
  {
    Coherent(names, cs, s) && Backed(s)
  }

  lemma SteadyStep(names: Naming, cs: nat, s: State, e: Event)
    requires cs > 0 && Steady(names, cs, s) && Legal(names, cs, s, e) && e.crashedAfter.None? && !e.op.LoseFile?
    ensures Steady(names, cs, Step(s, cs, e))
  {
    CoherentStep(names, cs, s, e);
  }

  /** The reply is exactly the plain store's answer. */
  predicate AnswersExactly(reply: Reply, up: map<string, Object>, e: Event) {
    && Answers(reply, up, e)
    && (reply.Found? ==> Unbroken(reply.pieces))
  }

  ghost predicate RefinesExactly(names: Naming, cs: nat, s: State, e: Event)
    requires cs > 0
  {
    && Steady(names, cs, s)
    && Step(s, cs, e).upstream == PlainStep(s.upstream, e.op)
    && AnswersExactly(ReplyOf(s, cs, e), s.upstream, e)
  }

  lemma EventRefinesExactly(names: Naming, cs: nat, s: State, e: Event)
    requires cs > 0 && Steady(names, cs, s) && Legal(names, cs, s, e) && e.crashedAfter.None?
    ensures RefinesExactly(names, cs, s, e)
  {
    UpstreamStep(s, cs, e);
    ReplyRight(names, cs, s, e);
  }

  /** Every state of a calm, legal run is steady, and what happens next is legal there. */
  lemma {:induction false} SteadyAt(names: Naming, cs: nat, s: State, run: seq<Event>, i: nat)
    requires cs > 0 && Steady(names, cs, s) && LegalRun(names, cs, s, run) && Calm(run) && i < |run|
    ensures Steady(names, cs, StateAt(s, cs, run, i))
    ensures Legal(names, cs, StateAt(s, cs, run, i), run[i])
    ensures run[i].crashedAfter.None? && !run[i].op.LoseFile?
    decreases i
  {
    CalmTail(run);
    if i > 0 {
      SteadyStep(names, cs, s, run[0]);
      SteadyAt(names, cs, Step(s, cs, run[0]), run[1..], i - 1);
    }
  }

  /**
   * Without crashes and lost files the cache is invisible: from a coherent, backed state every GET of every legal
   * run finishes with exactly the plain store's answer, and upstream evolves exactly as without a cache.
   */
  lemma CalmRunEqualsUpstream(names: Naming, cs: nat, s: State, run: seq<Event>, i: nat)
    requires cs > 0 && Steady(names, cs, s) && LegalRun(names, cs, s, run) && Calm(run) && i < |run|
    ensures RefinesExactly(names, cs, StateAt(s, cs, run, i), run[i])
  {
    SteadyAt(names, cs, s, run, i);
    EventRefinesExactly(names, cs, StateAt(s, cs, run, i), run[i]);
  }

  /** In a coherent state nothing is left over, so only a copy needs a guard. */
  lemma CoherentGuards(names: Naming, cs: nat, s: State, e: Event)
    requires cs > 0 && Coherent(names, cs, s)
    ensures Guarded(names, cs, s, e) <==>
              (e.op.CopyReq? && e.op.created.Some? && e.op.src in s.objects ==>
                 CopyGuarded(names, cs, s, e.op.src, e.op.dest, e.op.created.value, e.crashedAfter.Some?))
  {
    forall key: string
      ensures Recorded(s, key)
    {
      RecordedHasNoLeftover(s, key);
    }
  }

  /** A cache that starts empty is coherent and backed. */
  lemma EmptyCacheCoherent(names: Naming, cs: nat, upstream: map<string, Object>)
    requires cs > 0 && forall key :: key in upstream ==> NamedBy(names, upstream[key])
    ensures var s := State(upstream, map[], map[], map[]); Steady(names, cs, s)
  {
  }

  /** What upstream holds after a successful PUT is the body. */
  lemma AcceptedBody(names: Naming, cs: nat, s: State, put: Event)
    requires cs > 0 && put.op.PutReq? && Legal(names, cs, s, put) && AsPut(put.op, cs, put.disk).Succeeds()
    ensures put.op.key in PlainStep(s.upstream, put.op)
    ensures PlainStep(s.upstream, put.op)[put.op.key].content == Contents(put.op.pieces)
  {
    Splitter.IngestOutcome(put.op.key, [], put.op.pieces, put.op.closedAt, cs, put.disk);
  }

  /** One calm event: the state stays steady and upstream moves as the plain store does. */
  lemma CalmEvent(names: Naming, cs: nat, s: State, e: Event)
    requires cs > 0 && Steady(names, cs, s) && Legal(names, cs, s, e) && e.crashedAfter.None? && !e.op.LoseFile?
    ensures Steady(names, cs, Step(s, cs, e)) && Step(s, cs, e).upstream == PlainStep(s.upstream, e.op)
  {
    SteadyStep(names, cs, s, e);
    EventRefinesExactly(names, cs, s, e);
  }

  /** A GET of an object whose content is known. */
  lemma SteadyGet(names: Naming, cs: nat, s: State, get: Event, body: seq<byte>)
    requires cs > 0 && Steady(names, cs, s) && get.op.GetReq? && get.crashedAfter.None?
    requires get.op.key in s.upstream && s.upstream[get.op.key].content == body
    ensures |body| < TWO_TO_THE_64
    ensures var w := Window(get.op.range, |body|);
            var reply := ReplyOf(s, cs, get);
            && reply.Found? && Unbroken(reply.pieces)
            && reply.contentLength == w.1 - w.0 && Contents(reply.pieces) == body[w.0..w.1]
  {
    ReplyRight(names, cs, s, get);
  }

  /**
   * PUT then GET. However the body was cut into pieces, whatever the chunk size, and whichever chunks are evicted
   * in between: the GET of any range returns exactly that slice of the body.
   */
  lemma PutThenGet(names: Naming, cs: nat, s: State, put: Event, evict: Event, get: Event)
    requires cs > 0 && Steady(names, cs, s)
    requires put.op.PutReq? && evict.op.Evict? && get.op.GetReq? && get.op.key == put.op.key
    requires put.crashedAfter.None? && evict.crashedAfter.None? && get.crashedAfter.None?
    requires Legal(names, cs, s, put) && AsPut(put.op, cs, put.disk).Succeeds()
    ensures var body := Contents(put.op.pieces);
            var w := Window(get.op.range, |body|);
            var reply := ReplyOf(Step(Step(s, cs, put), cs, evict), cs, get);
            && reply.Found? && Unbroken(reply.pieces)
            && reply.contentLength == w.1 - w.0 && Contents(reply.pieces) == body[w.0..w.1]
  {
    var t := Step(s, cs, put);
    CalmEvent(names, cs, s, put);
    CalmEvent(names, cs, t, evict);
    AcceptedBody(names, cs, s, put);
    SteadyGet(names, cs, Step(t, cs, evict), get, Contents(put.op.pieces));
  }
}

/**
 * When a cached chunk is right. A chunk is judged against the version its object's record names, not against the
 * current upstream content, because staleness is only noticed when a request compares ETags. A write discipline
 * keeps this true after every single write, hence at every point where the process may die.
 */
module Coherence {
  import opened Basics
  import opened ChunkKey
  import opened Blocks
  import opened CacheModel

  /** The content that an ETag (or its absence) and a length stand for. */
  type Naming = (Option<string>, nat) -> seq<byte>

  /** Upstream never reports an empty ETag, and its ETag and length name the content. */
  ghost predicate NamedBy(names: Naming, o: Object) {
    o.etag != Some("") && names(o.etag, |o.content|) == o.content
  }

  ghost predicate UpstreamNamed(names: Naming, s: State) {
    forall key :: key in s.upstream ==> NamedBy(names, s.upstream[key])
  }

  /** A chunk file holds the bytes of the version `meta` names; an empty ETag names nothing. */
  ghost predicate FileRight(names: Naming, cs: nat, meta: ObjectMeta, idx: nat, data: seq<byte>) {
    && |data| == BlockLen(meta.contentLength, cs, idx)
    && (meta.etag != Some("") ==>
          && |names(meta.etag, meta.contentLength)| == meta.contentLength
          && data == Block(names(meta.etag, meta.contentLength), cs, idx))
  }

  /** An entry lies below the chunk count of `meta`, states its length, and its file, if present, is right. */
  ghost predicate EntryRight(names: Naming, cs: nat, meta: ObjectMeta, id: ChunkId, entry: ChunkMeta,
                             files: map<ChunkId, seq<byte>>)
    requires cs > 0
  {
    && id.idx < NumChunks(meta.contentLength, cs)
    && entry.status.Complete?
    && entry.size == Truncate32(BlockLen(meta.contentLength, cs, id.idx))
    && (id in files ==> FileRight(names, cs, meta, id.idx, files[id]))
  }

  /** What an object's chunks are judged against: its record, or else what upstream stores now. */
  function Governing(s: State, key: string): Option<ObjectMeta> {
    if key in s.objects then Some(s.objects[key])
    else if key in s.upstream then Some(s.upstream[key].Meta())
    else None
  }

  /** What holds after every single write, and so after a crash. */
  ghost predicate CrashSafe(names: Naming, cs: nat, s: State)
    requires cs > 0
  {
    && UpstreamNamed(names, s)
    && forall id :: id in s.entries ==>
         && Governing(s, id.key).Some?
         && EntryRight(names, cs, Governing(s, id.key).value, id, s.entries[id], s.files)
  }

  /** An object's chunk entries, if any, come with a record. */
  ghost predicate Recorded(s: State, key: string) {
    key in s.objects || forall id :: id in s.entries ==> id.key != key
  }

  /** What holds between operations: crash-safe, and no entry without a record. */
  ghost predicate Coherent(names: Naming, cs: nat, s: State)
    requires cs > 0
  {
    && CrashSafe(names, cs, s)
    && forall id :: id in s.entries ==> id.key in s.objects
  }

  /** Every entry has its file. */
  ghost predicate Backed(s: State) {
    forall id :: id in s.entries ==> id in s.files
  }

  ghost predicate NoEntries(s: State, key: string) {
    forall id :: id in s.entries ==> id.key != key
  }

  // --- the write discipline ---

  /** Every registered chunk of `key` is right for `record`. */
  ghost predicate EntriesFit(names: Naming, cs: nat, s: State, key: string, record: ObjectMeta)
    requires cs > 0
  {
    forall id :: id in s.entries && id.key == key ==> EntryRight(names, cs, record, id, s.entries[id], s.files)
  }

  /** Which write keeps every registered chunk right. */
  ghost predicate Allowed(names: Naming, cs: nat, s: State, w: Write)
    requires cs > 0
  {
    match w
    case SetFile(id, data) =>
      id in s.entries ==>
        Governing(s, id.key).Some? && FileRight(names, cs, Governing(s, id.key).value, id.idx, data)
    case DeleteFile(_) => true
    case PutEntry(id, meta) =>
      && Governing(s, id.key).Some?
      && EntryRight(names, cs, Governing(s, id.key).value, id, meta, s.files)
    case DeleteEntry(_) => true
    case PutObject(key, record) => EntriesFit(names, cs, s, key, record)
    case DeleteObject(key) =>
      NoEntries(s, key) || (key in s.upstream && EntriesFit(names, cs, s, key, s.upstream[key].Meta()))
    case Commit(key, o) => NamedBy(names, o) && (key in s.objects || EntriesFit(names, cs, s, key, o.Meta()))
    case Remove(key) => key in s.objects || NoEntries(s, key)
  }

  /** In terms of one object: what the state knows about it, and whether that is right. */
  lemma SafeByKey(names: Naming, cs: nat, s: State)
    requires cs > 0
    ensures CrashSafe(names, cs, s) <==>
              UpstreamNamed(names, s)
              && forall id :: id in s.entries ==>
                   Governing(s, id.key).Some? && EntriesFit(names, cs, s, id.key, Governing(s, id.key).value)
  {
    if CrashSafe(names, cs, s) {
      forall id | id in s.entries
        ensures EntriesFit(names, cs, s, id.key, Governing(s, id.key).value)
      {
      }
    }
  }

  lemma AllowedKeepsSafe(names: Naming, cs: nat, s: State, w: Write)
    requires cs > 0 && CrashSafe(names, cs, s) && Allowed(names, cs, s, w)
    ensures CrashSafe(names, cs, Apply(s, w))
  {
    match w {
      case SetFile(_, _) =>
      case DeleteFile(_) =>
      case PutEntry(_, _) =>
      case DeleteEntry(_) =>
      case PutObject(_, _) =>
      case DeleteObject(_) =>
      case Commit(_, _) =>
      case Remove(_) =>
    }
  }

  /** A write that leaves every registered chunk right is allowed. */
  lemma SafeWasAllowed(names: Naming, cs: nat, s: State, w: Write)
    requires cs > 0 && CrashSafe(names, cs, s) && CrashSafe(names, cs, Apply(s, w))
    ensures Allowed(names, cs, s, w)
  {
    var t := Apply(s, w);
    match w {
      case SetFile(id, data) =>
        if id in s.entries {
          assert EntryRight(names, cs, Governing(t, id.key).value, id, t.entries[id], t.files);
        }
      case DeleteFile(_) =>
      case PutEntry(id, meta) =>
        assert EntryRight(names, cs, Governing(t, id.key).value, id, t.entries[id], t.files);
      case DeleteEntry(_) =>
      case PutObject(_, _) => SafeByKey(names, cs, t);
      case DeleteObject(_) => SafeByKey(names, cs, t);
      case Commit(key, o) =>
        assert NamedBy(names, t.upstream[key]);
        SafeByKey(names, cs, t);
      case Remove(_) => SafeByKey(names, cs, t);
    }
  }

  /** The discipline is exact: a write is allowed if and only if it leaves the state crash-safe. */
  lemma AllowedExactly(names: Naming, cs: nat, s: State, w: Write)
    requires cs > 0 && CrashSafe(names, cs, s)
    ensures Allowed(names, cs, s, w) <==> CrashSafe(names, cs, Apply(s, w))
  {
    if Allowed(names, cs, s, w) {
      AllowedKeepsSafe(names, cs, s, w);
    } else if CrashSafe(names, cs, Apply(s, w)) {
      SafeWasAllowed(names, cs, s, w);
    }
  }

  /** Every write of the log is allowed at its turn. */
  ghost predicate Disciplined(names: Naming, cs: nat, s: State, log: Log)
    requires cs > 0
  {
    log == [] ||
    var rest := log[..|log| - 1];
    Disciplined(names, cs, s, rest) && Allowed(names, cs, Replay(s, rest), log[|log| - 1])
  }

  lemma DisciplinedOne(names: Naming, cs: nat, s: State, log: Log, w: Write)
    requires cs > 0 && Disciplined(names, cs, s, log) && Allowed(names, cs, Replay(s, log), w)
    ensures Disciplined(names, cs, s, log + [w])
  {
    assert (log + [w])[..|log|] == log;
  }

  lemma DisciplinedSnoc(names: Naming, cs: nat, s: State, log: Log, w: Write)
    requires cs > 0
    ensures Disciplined(names, cs, s, log + [w]) <==>
              Disciplined(names, cs, s, log) && Allowed(names, cs, Replay(s, log), w)
  {
    assert (log + [w])[..|log|] == log;
  }

  lemma {:induction false} DisciplinedConcat(names: Naming, cs: nat, s: State, a: Log, b: Log)
    requires cs > 0 && Disciplined(names, cs, s, a) && Disciplined(names, cs, Replay(s, a), b)
    ensures Disciplined(names, cs, s, a + b)
  {
    if b == [] {
      assert a + b == a;
    } else {
      var b' := b[..|b| - 1];
      DisciplinedConcat(names, cs, s, a, b');
      ReplayConcat(s, a, b');
      DisciplinedOne(names, cs, s, a + b', b[|b| - 1]);
      assert a + b == (a + b') + [b[|b| - 1]];
    }
  }

  /** A log in two parts is disciplined exactly when each part is, the second from where the first ends. */
  lemma {:induction false} DisciplinedParts(names: Naming, cs: nat, s: State, a: Log, b: Log)
    requires cs > 0
    ensures Disciplined(names, cs, s, a + b) <==>
              Disciplined(names, cs, s, a) && Disciplined(names, cs, Replay(s, a), b)
  {
    if b == [] {
      assert a + b == a;
    } else {
      var b', w := b[..|b| - 1], b[|b| - 1];
      DisciplinedParts(names, cs, s, a, b');
      ReplayConcat(s, a, b');
      Associative(a, b', [w]);
      assert b == b' + [w];
      DisciplinedSnoc(names, cs, s, a + b', w);
    }
  }

  /** A disciplined log can be cut anywhere: every crash point leaves a crash-safe state. */
  lemma {:induction false} DisciplineSafe(names: Naming, cs: nat, s: State, log: Log, k: nat)
    requires cs > 0 && CrashSafe(names, cs, s) && Disciplined(names, cs, s, log) && k <= |log|
    ensures CrashSafe(names, cs, Replay(s, log[..k]))
  {
    if |log| > 0 {
      var rest := log[..|log| - 1];
      if k < |log| {
        DisciplineSafe(names, cs, s, rest, k);
        assert rest[..k] == log[..k];
      } else {
        DisciplineSafe(names, cs, s, rest, |rest|);
        assert rest[..|rest|] == rest && log[..k] == log;
        AllowedKeepsSafe(names, cs, Replay(s, rest), log[|log| - 1]);
      }
    }
  }

  /** And only a disciplined log can: the discipline is what makes every crash point safe. */
  lemma {:induction false} DisciplineExactly(names: Naming, cs: nat, s: State, log: Log)
    requires cs > 0 && CrashSafe(names, cs, s)
    ensures Disciplined(names, cs, s, log) <==> SafeThroughout(names, cs, s, log)
  {
    if log != [] {
      var n := |log| - 1;
      var rest := log[..n];
      DisciplineExactly(names, cs, s, rest);
      SafeThroughoutStep(names, cs, s, log);
      if SafeThroughout(names, cs, s, rest) {
        assert rest[..|rest|] == rest;
        assert CrashSafe(names, cs, Replay(s, rest[..|rest|]));
        AllowedExactly(names, cs, Replay(s, rest), log[n]);
      }
    } else {
      assert log[..0] == [];
    }
  }

  /** However many of the writes are performed, every registered chunk is right. */
  ghost predicate SafeThroughout(names: Naming, cs: nat, s: State, log: Log)
    requires cs > 0
  {
    forall k: nat :: k <= |log| ==> CrashSafe(names, cs, Replay(s, log[..k]))
  }

  lemma SafeThroughoutStep(names: Naming, cs: nat, s: State, log: Log)
    requires cs > 0 && log != []
    ensures SafeThroughout(names, cs, s, log) <==>
              SafeThroughout(names, cs, s, log[..|log| - 1]) && CrashSafe(names, cs, Replay(s, log))
  {
    var rest := log[..|log| - 1];
    assert log[..|log|] == log;
    assert forall k: nat :: k <= |rest| ==> rest[..k] == log[..k];
    if SafeThroughout(names, cs, s, log) {
      forall k: nat | k <= |rest|
        ensures CrashSafe(names, cs, Replay(s, rest[..k]))
      {
        assert CrashSafe(names, cs, Replay(s, log[..k]));
      }
      assert CrashSafe(names, cs, Replay(s, log[..|log|]));
    }
    if SafeThroughout(names, cs, s, rest) && CrashSafe(names, cs, Replay(s, log)) {
      forall k: nat | k <= |log|
        ensures CrashSafe(names, cs, Replay(s, log[..k]))
      {
        if k < |log| {
          assert CrashSafe(names, cs, Replay(s, rest[..k]));
        }
      }
    }
  }

  // --- frames ---

  /** Two tables agree on every entry that is not about `key`. */
  ghost predicate AgreeOff<V>(m: map<string, V>, n: map<string, V>, key: string) {
    forall k :: k != key ==> (k in m <==> k in n) && (k in m ==> m[k] == n[k])
  }

  ghost predicate AgreeOffChunks<V>(m: map<ChunkId, V>, n: map<ChunkId, V>, key: string) {
    forall id: ChunkId :: id.key != key ==> (id in m <==> id in n) && (id in m ==> m[id] == n[id])
  }

  /** Two states differ at most in what concerns `key`. */
  ghost predicate SameElsewhere(s: State, t: State, key: string) {
    && AgreeOff(s.upstream, t.upstream, key)
    && AgreeOff(s.objects, t.objects, key)
    && AgreeOffChunks(s.entries, t.entries, key)
    && AgreeOffChunks(s.files, t.files, key)
  }

  ghost predicate About(log: Log, key: string) {
    forall w :: w in log ==> w.Subject() == key
  }

  lemma ApplyFrame(s: State, w: Write)
    ensures SameElsewhere(s, Apply(s, w), w.Subject())
  {
  }

  lemma AgreeTrans<V>(a: map<string, V>, b: map<string, V>, c: map<string, V>, key: string)
    requires AgreeOff(a, b, key) && AgreeOff(b, c, key)
    ensures AgreeOff(a, c, key)
  {
  }

  lemma AgreeChunksTrans<V>(a: map<ChunkId, V>, b: map<ChunkId, V>, c: map<ChunkId, V>, key: string)
    requires AgreeOffChunks(a, b, key) && AgreeOffChunks(b, c, key)
    ensures AgreeOffChunks(a, c, key)
  {
  }

  /** An operation whose writes are all about one object leaves every other object alone. */
  lemma {:induction false} LogFrame(s: State, log: Log, key: string)
    requires About(log, key)
    ensures SameElsewhere(s, Replay(s, log), key)
  {
    if log != [] {
      var mid := Replay(s, log[..|log| - 1]);
      LogFrame(s, log[..|log| - 1], key);
      assert log[|log| - 1] in log;
      var t := Apply(mid, log[|log| - 1]);
      ApplyFrame(mid, log[|log| - 1]);
      AgreeTrans(s.upstream, mid.upstream, t.upstream, key);
      AgreeTrans(s.objects, mid.objects, t.objects, key);
      AgreeChunksTrans(s.entries, mid.entries, t.entries, key);
      AgreeChunksTrans(s.files, mid.files, t.files, key);
    }
  }
}

/**
 * The access times that drive eviction: a GET stamps exactly the registered chunks it reads with the clock's reading
 * for them, and so keeps them from being evicted before chunks nobody has read since.
 */
module Recency {
  import opened Basics
  import opened ChunkKey
  import opened Blocks
  import opened CacheModel
  import opened Coherence
  import opened Operations
  import opened ByteRange
  import opened Runs
  import opened Sorting
  import opened Database
  import opened Eviction

  /** `t` is `s` with the complete chunks of `key` in [begin, limit) stamped. */
  ghost predicate Stamped(s: State, t: State, key: string, begin: nat, limit: nat, clock: Clock, id: ChunkId) {
    && (id in t.entries <==> id in s.entries)
    && (id in s.entries ==>
          t.entries[id] == if id.key == key && begin <= id.idx < limit && s.entries[id].status == Complete then
                             ChunkMeta(s.entries[id].size, clock(id.idx), Complete)
                           else s.entries[id])
  }

  lemma StampNext(s: State, t: State, key: string, begin: nat, last: u64, clock: Clock, id: ChunkId)
    requires begin <= last && Stamped(s, t, key, begin, last, clock, id)
    ensures var touched := ChunkId(key, last);
            var u := if IsHit(s, touched) then
                       Apply(t, PutEntry(touched, s.entries[touched].(lastAccessedAt := clock(last))))
                     else t;
            Stamped(s, u, key, begin, last + 1, clock, id)
  {
  }

  /** The touches of a read stamp exactly its complete chunks, each with the clock's reading for it. */
  lemma {:induction false} TouchedAt(s: State, key: string, begin: nat, limit: nat, clock: Clock, id: ChunkId)
    requires begin <= limit <= TWO_TO_THE_64
    ensures Stamped(s, Replay(s, TouchLog(s, key, begin, limit, clock)), key, begin, limit, clock, id)
    decreases limit
  {
    if begin < limit {
      var last := ChunkId(key, limit - 1);
      var log := TouchLog(s, key, begin, limit - 1, clock);
      TouchedAt(s, key, begin, limit - 1, clock, id);
      StampNext(s, Replay(s, log), key, begin, limit - 1, clock, id);
      if IsHit(s, last) {
        ReplayOne(s, log, PutEntry(last, s.entries[last].(lastAccessedAt := clock(last.idx))));
      } else {
        assert log + TouchEntry(s, last, clock) == log;
      }
    }
  }

  /** Chunk `idx` holds a byte of [start, end). */
  ghost predicate Meets(cs: nat, start: nat, end: nat, idx: nat)
    requires cs > 0
  {
    exists i: nat :: start <= i < end && Quotient(i, cs) == idx
  }

  /** A read visits exactly the chunks that hold one of its bytes. */
  lemma VisitedExactly(size: u64, cs: nat, start: nat, end: nat, idx: nat)
    requires cs > 0 && end <= size
    ensures ReadFrom(size, cs, start, end) <= idx < ReadTo(size, cs, start, end) <==> Meets(cs, start, end, idx)
  {
    if start < end {
      DivBounds(start, cs);
      DivBounds(end - 1, cs);
      if Meets(cs, start, end, idx) {
        var i: nat :| start <= i < end && Quotient(i, cs) == idx;
        DivBounds(i, cs);
        DivUnique(i, cs, Quotient(start, cs));
        DivUnique(end - 1, cs, Quotient(i, cs));
      }
      if Quotient(start, cs) <= idx <= Quotient(end - 1, cs) {
        MeetingByte(cs, start, end, idx);
      }
    }
  }

  /** The first byte of the chunk, or of the range. */
  lemma MeetingByte(cs: nat, start: nat, end: nat, idx: nat)
    requires cs > 0 && start < end && Quotient(start, cs) <= idx <= Quotient(end - 1, cs)
    ensures Meets(cs, start, end, idx)
  {
    DivUnique(start, cs, idx);
    DivUnique(end - 1, cs, idx);
    if idx == Quotient(start, cs) {
      assert Quotient(start, cs) == idx;
    } else {
      var i := idx * cs;
      DivUnique(i, cs, idx);
      DivUnique(i, cs, idx + 1);
      StartMonotone(0, cs, idx);
      assert Quotient(i, cs) == idx;
    }
  }

  /** A GET is a refresh and then the touches of its window's chunks. */
  lemma GetIsTouches(s: State, cs: nat, e: Event, key: string)
    requires cs > 0 && key in s.upstream && e.op.GetReq? && e.op.key == key && e.crashedAfter.None?
    ensures var size, r := |s.upstream[key].content|, Replay(s, RefreshLog(s, key, cs, e.disk));
            var w := Window(e.op.range, size);
            Step(s, cs, e) == Replay(r, TouchLog(r, key, ReadFrom(size, cs, w.0, w.1), ReadTo(size, cs, w.0, w.1), e.clock))
  {
    var r := Replay(s, RefreshLog(s, key, cs, e.disk));
    var size := |s.upstream[key].content|;
    var w := Window(e.op.range, size);
    RefreshEffect(s, key, cs, e.disk);
    DropEffect(s, key, cs, e.disk);
    RefreshIdempotent(r, key, cs, e.disk);
    var again := RefreshLog(r, key, cs, e.disk);
    var touches := TouchLog(r, key, ReadFrom(size, cs, w.0, w.1), ReadTo(size, cs, w.0, w.1), e.clock);
    ReplayConcat(r, again, touches);
    ReplayConcat(s, RefreshLog(s, key, cs, e.disk), again + touches);
  }

  /** The chunk is registered and complete, and holds a byte the GET was asked for. */
  ghost predicate ReadBy(s: State, cs: nat, e: Event, id: ChunkId)
    requires cs > 0 && e.op.GetReq? && e.op.key in s.upstream
  {
    var w := Window(e.op.range, |s.upstream[e.op.key].content|);
    && id.key == e.op.key && Meets(cs, w.0, w.1, id.idx)
    && id in s.entries && s.entries[id].status == Complete
  }

  /**
   * What a GET does to the access times, once the metadata is fresh: exactly the complete chunks that hold a byte it
   * was asked for are stamped with the clock's readings; every other entry is as it was.
   */
  lemma GetStamps(s: State, cs: nat, e: Event, key: string, id: ChunkId)
    requires cs > 0 && key in s.upstream && e.op.GetReq? && e.op.key == key && e.crashedAfter.None?
    ensures var r, t := Replay(s, RefreshLog(s, key, cs, e.disk)), Step(s, cs, e);
            && r.upstream == s.upstream
            && (id in t.entries <==> id in r.entries)
            && (id in r.entries ==>
                  t.entries[id] == if ReadBy(r, cs, e, id) then ChunkMeta(r.entries[id].size, e.clock(id.idx), Complete)
                                   else r.entries[id])
  {
    var r := Replay(s, RefreshLog(s, key, cs, e.disk));
    var size := |s.upstream[key].content|;
    var w := Window(e.op.range, size);
    RefreshEffect(s, key, cs, e.disk);
    DropEffect(s, key, cs, e.disk);
    GetIsTouches(s, cs, e, key);
    TouchedAt(r, key, ReadFrom(size, cs, w.0, w.1), ReadTo(size, cs, w.0, w.1), e.clock, id);
    VisitedExactly(size, cs, w.0, w.1, id.idx);
  }

  /** In terms of the request: a chunk is read by a satisfiable range if it holds a position the range selects. */
  lemma RangedReadBy(s: State, cs: nat, e: Event, header: string, spec: Spec, id: ChunkId)
    requires cs > 0 && e.op.GetReq? && e.op.range == Some(header) && e.op.key in s.upstream
    requires Spells(header, spec) && spec.Satisfiable(|s.upstream[e.op.key].content|) && spec.FitsU64() && !Wraps(spec)
    ensures ReadBy(s, cs, e, id)
            <==> && id.key == e.op.key && id in s.entries && s.entries[id].status == Complete
                 && exists i: nat :: spec.Selects(|s.upstream[e.op.key].content|, i) && Quotient(i, cs) == id.idx
  {
    var size := |s.upstream[e.op.key].content|;
    SatisfiableRangesAgree(header, spec, size);
    var w := ParseRange(header, size).value;
    assert Window(e.op.range, size) == (w.0, w.1, true);
    MeetsSelected(spec, size, cs, w.0, w.1, id.idx);
  }

  lemma MeetsSelected(spec: Spec, size: nat, cs: nat, start: nat, end: nat, idx: nat)
    requires cs > 0 && forall i: nat :: spec.Selects(size, i) <==> start <= i < end
    ensures Meets(cs, start, end, idx) <==> exists i: nat :: spec.Selects(size, i) && Quotient(i, cs) == idx
  {
    if Meets(cs, start, end, idx) {
      var i: nat :| start <= i < end && Quotient(i, cs) == idx;
      assert spec.Selects(size, i);
    }
  }

  // --- across a GET and an eviction ---

  /** Every access time recorded so far is before every reading of the clock. */
  ghost predicate Earlier(s: State, clock: Clock) {
    forall id, n: nat :: id in s.entries ==> s.entries[id].lastAccessedAt < clock(n)
  }

  /** Only dropping changes what is registered in a refresh. */
  lemma RefreshKeepsTimes(s: State, key: string, cs: nat, disk: Disk, id: ChunkId)
    requires cs > 0 && key in s.upstream
    ensures var r := Replay(s, RefreshLog(s, key, cs, disk));
            id in r.entries ==> id in s.entries && r.entries[id] == s.entries[id]
  {
    RefreshEffect(s, key, cs, disk);
    DropEffect(s, key, cs, disk);
  }

  /**
   * Reading a chunk protects it. After a GET, an eviction run of any length that leaves some complete chunk the GET
   * did not read has evicted none of the chunks the GET did read.
   */
  lemma ReadChunksOutlive(s: State, cs: nat, e: Event, key: string, table: map<string, ChunkMeta>, rows: Rows, n: nat,
                          read: ChunkId, unread: ChunkId)
    requires cs > 0 && key in s.upstream && e.op.GetReq? && e.op.key == key && e.crashedAfter.None?
    requires Earlier(s, e.clock)
    requires Represents(table, Step(s, cs, e).entries) && Lists(table, rows) && n <= |Oldest(rows)|
    requires var r := Replay(s, RefreshLog(s, key, cs, e.disk));
             && key in r.upstream && ReadBy(r, cs, e, read) && !ReadBy(r, cs, e, unread)
    requires unread in Step(s, cs, e).entries && Step(s, cs, e).entries[unread].status == Complete
    requires Encode(unread) !in Keys(Oldest(rows), n)
    ensures Encode(read) !in Keys(Oldest(rows), n)
  {
    var t := Step(s, cs, e);
    GetStamps(s, cs, e, key, read);
    GetStamps(s, cs, e, key, unread);
    RefreshKeepsTimes(s, key, cs, e.disk, unread);
    assert t.entries[unread].lastAccessedAt < t.entries[read].lastAccessedAt;
    NewerStays(table, t.entries, rows, n, read, unread);
  }

  /** A complete chunk older than another is not left when the newer one has gone. */
  lemma NewerStays(table: map<string, ChunkMeta>, entries: map<ChunkId, ChunkMeta>, rows: Rows, n: nat, newer: ChunkId,
                   older: ChunkId)
    requires Represents(table, entries) && Lists(table, rows) && n <= |Oldest(rows)|
    requires newer in entries && older in entries && entries[older].status == Complete
    requires entries[older].lastAccessedAt < entries[newer].lastAccessedAt
    requires Encode(older) !in Keys(Oldest(rows), n)
    ensures Encode(newer) !in Keys(Oldest(rows), n)
  {
    var k := Encode(newer);
    assert table[Encode(older)] == entries[older] && table[k] == entries[newer];
    EvictionIsLru(table, rows, n, Encode(older));
    OldestMatches(table, rows);
    KeysAre(Oldest(rows), n, k);
    forall i | 0 <= i < n
      ensures Oldest(rows)[i].dbKey != k
    {
      assert Describes(table, Oldest(rows)[i]);
    }
  }
}

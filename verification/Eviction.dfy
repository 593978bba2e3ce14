/** LRU eviction: which chunks go, how many bytes that frees, and that no fewer would do. */
module Eviction {
  import opened Basics
  import opened ChunkKey
  import opened CacheModel
  import opened Sorting
  import opened Database
  import opened Storage
  import opened Journal
  import opened Coherence

  datatype Candidate = Candidate(dbKey: string, size: u32, accessedAt: int)

  predicate NotNewer(a: Candidate, b: Candidate) {
    a.accessedAt <= b.accessedAt
  }

  /** Registered bytes in the first `n` rows, as the scan adds them up. */
  function Total(rows: Rows, n: nat): nat
    requires n <= |rows|
  {
    if n == 0 then 0 else Total(rows, n - 1) + rows[n - 1].1.size
  }

  /** The complete chunks among the first `n` rows, in table order. */
  function Candidates(rows: Rows, n: nat): seq<Candidate>
    requires n <= |rows|
  {
    if n == 0 then []
    else
      var (key, chunk) := rows[n - 1];
      Candidates(rows, n - 1)
      + (if chunk.status.Complete? then [Candidate(key, chunk.size, chunk.lastAccessedAt)] else [])
  }

  /** Bytes of the first `n` candidates. */
  function Freed(cs: seq<Candidate>, n: nat): nat
    requires n <= |cs|
  {
    if n == 0 then 0 else Freed(cs, n - 1) + cs[n - 1].size
  }

  /** How far the eviction loop gets, continuing from `k`. */
  function Taken(cs: seq<Candidate>, need: nat, k: nat): (n: nat)
    requires k <= |cs|
    ensures k <= n <= |cs|
    decreases |cs| - k
  {
    if k == |cs| || Freed(cs, k) >= need then k else Taken(cs, need, k + 1)
  }

  /** `sort_by_key` on the access time. */
  function ByAge(cs: seq<Candidate>): seq<Candidate> {
    Sort(cs, NotNewer)
  }

  /** The candidates in eviction order. */
  function Oldest(rows: Rows): seq<Candidate> {
    ByAge(Candidates(rows, |rows|))
  }

  /** How many of the oldest candidates one eviction run removes. */
  function VictimCount(rows: Rows, oldest: seq<Candidate>, maxSize: u64, targetSize: u64): (n: nat)
    ensures n <= |oldest|
  {
    var total := Total(rows, |rows|);
    if total <= maxSize then 0 else Taken(oldest, Max(total - targetSize, 0), 0)
  }

  function Keys(cs: seq<Candidate>, n: nat): set<string>
    requires n <= |cs|
  {
    if n == 0 then {} else Keys(cs, n - 1) + {cs[n - 1].dbKey}
  }

  /** The first `n` keys are the printed forms of these chunk ids. */
  ghost predicate PrintedFrom(cs: seq<Candidate>, ids: seq<ChunkId>, n: nat)
    requires n <= |cs| && n <= |ids|
  {
    n == 0 || (PrintedFrom(cs, ids, n - 1) && cs[n - 1].dbKey == Encode(ids[n - 1]))
  }

  lemma {:induction false} PrintAt(cs: seq<Candidate>, ids: seq<ChunkId>, m: nat, n: nat)
    requires n < m <= |cs| && m <= |ids| && PrintedFrom(cs, ids, m)
    ensures cs[n].dbKey == Encode(ids[n])
  {
    if n < m - 1 {
      PrintAt(cs, ids, m - 1, n);
    }
  }

  // --- candidates and the table ---

  predicate Describes(table: map<string, ChunkMeta>, c: Candidate) {
    && c.dbKey in table && table[c.dbKey].status.Complete?
    && c.size == table[c.dbKey].size && c.accessedAt == table[c.dbKey].lastAccessedAt
  }

  /** No chunk appears twice among the first `n`. */
  ghost predicate DistinctKeys(cs: seq<Candidate>, n: nat)
    requires n <= |cs|
  {
    n == 0 || (DistinctKeys(cs, n - 1) && cs[n - 1].dbKey !in Keys(cs, n - 1))
  }

  lemma {:induction false} KeysAre(cs: seq<Candidate>, n: nat, k: string)
    requires n <= |cs|
    ensures k in Keys(cs, n) <==> exists i :: 0 <= i < n && cs[i].dbKey == k
  {
    if n > 0 {
      KeysAre(cs, n - 1, k);
    }
  }

  lemma {:induction false} DistinctPairs(cs: seq<Candidate>, n: nat, i: nat, j: nat)
    requires i < j < n <= |cs| && DistinctKeys(cs, n)
    ensures cs[i].dbKey != cs[j].dbKey
  {
    KeysAre(cs, n - 1, cs[n - 1].dbKey);
    if j < n - 1 {
      DistinctPairs(cs, n - 1, i, j);
    }
  }

  lemma {:induction false} PairsDistinct(cs: seq<Candidate>, n: nat)
    requires n <= |cs| && forall i, j :: 0 <= i < j < n ==> cs[i].dbKey != cs[j].dbKey
    ensures DistinctKeys(cs, n)
  {
    if n > 0 {
      PairsDistinct(cs, n - 1);
      KeysAre(cs, n - 1, cs[n - 1].dbKey);
    }
  }

  /** Each candidate is a complete chunk of the table, and none appears twice. */
  ghost predicate Matches(table: map<string, ChunkMeta>, cs: seq<Candidate>) {
    && (forall i :: 0 <= i < |cs| ==> Describes(table, cs[i]))
    && DistinctKeys(cs, |cs|)
  }

  /** Row `i` yields candidate `c`. */
  predicate Yields(rows: Rows, i: nat, c: Candidate) {
    i < |rows| && rows[i].1.status.Complete? && c == Candidate(rows[i].0, rows[i].1.size, rows[i].1.lastAccessedAt)
  }

  lemma {:induction false} CandidatesFrom(rows: Rows, n: nat, c: Candidate)
    requires n <= |rows|
    ensures c in Candidates(rows, n) <==> exists i: nat :: i < n && Yields(rows, i, c)
  {
    if n > 0 {
      CandidatesFrom(rows, n - 1, c);
      if Yields(rows, n - 1, c) {
      }
    }
  }

  lemma {:induction false} CandidatesDistinct(rows: Rows, n: nat)
    requires n <= |rows| && Ascending(rows, |rows|)
    ensures forall i, j :: 0 <= i < j < |Candidates(rows, n)| ==>
              Candidates(rows, n)[i].dbKey != Candidates(rows, n)[j].dbKey
  {
    if n > 0 {
      CandidatesDistinct(rows, n - 1);
      var init := Candidates(rows, n - 1);
      forall i | 0 <= i < |init|
        ensures init[i].dbKey != rows[n - 1].0
      {
        CandidatesFrom(rows, n - 1, init[i]);
        var r: nat :| r < n - 1 && Yields(rows, r, init[i]);
        AscendingPairs(rows, |rows|, r, n - 1);
      }
    }
  }

  /** Every complete chunk of the table is among the candidates. */
  ghost predicate NamesAll(table: map<string, ChunkMeta>, cs: seq<Candidate>) {
    forall k :: k in table && table[k].status.Complete? ==>
      Candidate(k, table[k].size, table[k].lastAccessedAt) in cs
  }

  /** The candidates are exactly the complete chunks of the table. */
  lemma CandidatesComplete(table: map<string, ChunkMeta>, rows: Rows)
    requires Lists(table, rows)
    ensures Matches(table, Candidates(rows, |rows|)) && NamesAll(table, Candidates(rows, |rows|))
  {
    var cs := Candidates(rows, |rows|);
    CandidatesDistinct(rows, |rows|);
    PairsDistinct(cs, |cs|);
    forall i | 0 <= i < |cs|
      ensures Describes(table, cs[i])
    {
      CandidatesFrom(rows, |rows|, cs[i]);
    }
    forall k | k in table && table[k].status.Complete?
      ensures Candidate(k, table[k].size, table[k].lastAccessedAt) in cs
    {
      assert (k, table[k]) in rows;
      var i :| 0 <= i < |rows| && rows[i] == (k, table[k]);
      assert Yields(rows, i, Candidate(k, table[k].size, table[k].lastAccessedAt));
      CandidatesFrom(rows, |rows|, Candidate(k, table[k].size, table[k].lastAccessedAt));
    }
  }

  lemma TwoPositions<T>(s: seq<T>, i: nat, j: nat)
    requires i < j < |s| && s[i] == s[j]
    ensures multiset(s)[s[i]] >= 2
  {
    assert s == s[..j] + ([s[j]] + s[j + 1..]);
    assert s[i] in s[..j];
  }

  lemma OnceInMiddle<T>(before: seq<T>, c: T, after: seq<T>)
    requires c !in before && c !in after
    ensures multiset(before + [c] + after)[c] == 1
  {
  }

  lemma KeysOnce(cs: seq<Candidate>, c: Candidate)
    requires DistinctKeys(cs, |cs|)
    ensures multiset(cs)[c] <= 1
  {
    if c in cs {
      var k :| 0 <= k < |cs| && cs[k] == c;
      forall i | 0 <= i < |cs| && i != k
        ensures cs[i] != c
      {
        DistinctPairs(cs, |cs|, if i < k then i else k, if i < k then k else i);
      }
      OnceInMiddle(cs[..k], c, cs[k + 1..]);
      assert cs == cs[..k] + [c] + cs[k + 1..];
    }
  }

  /** A rearrangement of candidates still names each chunk once. */
  lemma MatchesPermuted(table: map<string, ChunkMeta>, a: seq<Candidate>, b: seq<Candidate>)
    requires Matches(table, a) && multiset(a) == multiset(b)
    ensures Matches(table, b)
  {
    SameElements(a, b);
    forall i | 0 <= i < |b|
      ensures Describes(table, b[i])
    {
      assert b[i] in a;
    }
    forall i, j | 0 <= i < j < |b|
      ensures b[i].dbKey != b[j].dbKey
    {
      if b[i].dbKey == b[j].dbKey {
        assert Describes(table, b[i]) && Describes(table, b[j]);
        TwoPositions(b, i, j);
        KeysOnce(a, b[i]);
      }
    }
    PairsDistinct(b, |b|);
  }

  lemma NotNewerPreorder()
    ensures Preorder(NotNewer)
  {
  }

  /** The eviction order names the complete chunks, each once. */
  lemma OldestMatches(table: map<string, ChunkMeta>, rows: Rows)
    requires Lists(table, rows)
    ensures Matches(table, Oldest(rows)) && NamesAll(table, Oldest(rows))
  {
    var cs := Candidates(rows, |rows|);
    NotNewerPreorder();
    SortSorts(cs, NotNewer);
    CandidatesComplete(table, rows);
    MatchesPermuted(table, cs, Oldest(rows));
    SameElements(cs, Oldest(rows));
  }

  lemma OldestSorted(rows: Rows)
    ensures Sorted(Oldest(rows), NotNewer)
  {
    NotNewerPreorder();
    SortSorts(Candidates(rows, |rows|), NotNewer);
  }

  /** Chunks last used in the same second are considered in table order. */
  lemma OldestStable(rows: Rows, when: int)
    ensures Filter(Oldest(rows), (c: Candidate) => c.accessedAt == when)
            == Filter(Candidates(rows, |rows|), (c: Candidate) => c.accessedAt == when)
  {
    SortStable(Candidates(rows, |rows|), NotNewer, (c: Candidate) => c.accessedAt == when);
  }

  // --- bytes ---

  /** Registered bytes of a table. */
  ghost function Bytes(table: map<string, ChunkMeta>): nat {
    if table == map[] then 0
    else
      var k :| k in table;
      table[k].size + Bytes(table - {k})
  }

  lemma {:induction false} BytesRemove(table: map<string, ChunkMeta>, k: string)
    requires k in table
    ensures Bytes(table) == table[k].size + Bytes(table - {k})
    decreases |table|
  {
    var p :| p in table && Bytes(table) == table[p].size + Bytes(table - {p});
    if p != k {
      BytesRemove(table - {p}, k);
      BytesRemove(table - {k}, p);
      assert table - {p} - {k} == table - {k} - {p};
    }
  }

  lemma {:induction false} DistinctAt(cs: seq<Candidate>, m: nat, n: nat)
    requires 0 < n <= m <= |cs| && DistinctKeys(cs, m)
    ensures cs[n - 1].dbKey !in Keys(cs, n - 1)
  {
    if n < m {
      DistinctAt(cs, m - 1, n);
    }
  }

  /** Evicting the first `n` candidates removes exactly their bytes. */
  lemma {:induction false} BytesWithout(table: map<string, ChunkMeta>, cs: seq<Candidate>, n: nat)
    requires Matches(table, cs) && n <= |cs|
    ensures Bytes(table - Keys(cs, n)) == Bytes(table) - Freed(cs, n)
  {
    if n == 0 {
      assert table - Keys(cs, 0) == table;
    } else {
      BytesWithout(table, cs, n - 1);
      DistinctAt(cs, |cs|, n);
      assert Describes(table, cs[n - 1]);
      var rest := table - Keys(cs, n - 1);
      BytesRemove(rest, cs[n - 1].dbKey);
      assert rest - {cs[n - 1].dbKey} == table - Keys(cs, n);
    }
  }

  function RowKeys(rows: Rows, n: nat): set<string>
    requires n <= |rows|
  {
    if n == 0 then {} else RowKeys(rows, n - 1) + {rows[n - 1].0}
  }

  lemma {:induction false} RowKeysAre(rows: Rows, n: nat, k: string)
    requires n <= |rows|
    ensures k in RowKeys(rows, n) <==> exists i :: 0 <= i < n && rows[i].0 == k
  {
    if n > 0 {
      RowKeysAre(rows, n - 1, k);
    }
  }

  lemma {:induction false} TotalOfRows(table: map<string, ChunkMeta>, rows: Rows, n: nat)
    requires Lists(table, rows) && n <= |rows|
    ensures Bytes(table - RowKeys(rows, n)) == Bytes(table) - Total(rows, n)
  {
    if n == 0 {
      assert table - RowKeys(rows, 0) == table;
    } else {
      TotalOfRows(table, rows, n - 1);
      RowKeysAre(rows, n - 1, rows[n - 1].0);
      forall i | 0 <= i < n - 1
        ensures rows[i].0 != rows[n - 1].0
      {
        AscendingPairs(rows, |rows|, i, n - 1);
      }
      var rest := table - RowKeys(rows, n - 1);
      BytesRemove(rest, rows[n - 1].0);
      assert rest - {rows[n - 1].0} == table - RowKeys(rows, n);
    }
  }

  /** The scan's total is the table's. */
  lemma TotalIsBytes(table: map<string, ChunkMeta>, rows: Rows)
    requires Lists(table, rows)
    ensures Total(rows, |rows|) == Bytes(table)
  {
    TotalOfRows(table, rows, |rows|);
    forall k | k in table
      ensures k in RowKeys(rows, |rows|)
    {
      assert (k, table[k]) in rows;
      RowKeysAre(rows, |rows|, k);
    }
    assert table - RowKeys(rows, |rows|) == map[];
  }

  // --- the greedy prefix ---

  /** `n` is the first number of candidates that free enough, or all of them. */
  ghost predicate FirstEnough(cs: seq<Candidate>, need: nat, n: nat)
    requires n <= |cs|
  {
    && (n < |cs| ==> Freed(cs, n) >= need)
    && (forall j: nat :: j < n ==> Freed(cs, j) < need)
  }

  /** The loop stops as soon as enough bytes are freed, and not before. */
  lemma {:induction false} TakenExact(cs: seq<Candidate>, need: nat, k: nat)
    requires k <= |cs|
    requires forall j: nat :: j < k ==> Freed(cs, j) < need
    ensures FirstEnough(cs, need, Taken(cs, need, k))
    decreases |cs| - k
  {
    if k < |cs| && Freed(cs, k) < need {
      TakenExact(cs, need, k + 1);
    }
  }

  lemma {:induction false} FreedMonotone(cs: seq<Candidate>, n: nat, m: nat)
    requires n <= m <= |cs|
    ensures Freed(cs, n) <= Freed(cs, m)
  {
    if n < m {
      FreedMonotone(cs, n, m - 1);
    }
  }

  /** Registered bytes once the first `n` candidates are gone. */
  ghost function Left(table: map<string, ChunkMeta>, cs: seq<Candidate>, n: nat): nat
    requires n <= |cs|
  {
    Bytes(table - Keys(cs, n))
  }

  /** Bytes of the chunks eviction may not touch. */
  ghost function BusyBytes(table: map<string, ChunkMeta>): nat {
    Bytes(map k | k in table && !table[k].status.Complete? :: table[k])
  }

  lemma AllCandidatesGone(table: map<string, ChunkMeta>, cs: seq<Candidate>)
    requires Matches(table, cs) && NamesAll(table, cs)
    ensures Left(table, cs, |cs|) == BusyBytes(table)
  {
    var busy := map k | k in table && !table[k].status.Complete? :: table[k];
    forall k | k in table
      ensures k in Keys(cs, |cs|) <==> table[k].status.Complete?
    {
      KeysAre(cs, |cs|, k);
      if k in Keys(cs, |cs|) {
        var i :| 0 <= i < |cs| && cs[i].dbKey == k;
        assert Describes(table, cs[i]);
      }
      if table[k].status.Complete? {
        var i :| 0 <= i < |cs| && cs[i] == Candidate(k, table[k].size, table[k].lastAccessedAt);
      }
    }
    assert table - Keys(cs, |cs|) == busy;
  }

  /**
   * Evicting `n` candidates is just enough: what remains is within the target exactly when the chunks that may not
   * be evicted fit it, every shorter run leaves more than the target, and the overshoot is less than the last victim.
   */
  ghost predicate JustEnough(table: map<string, ChunkMeta>, cs: seq<Candidate>, n: nat, target: nat)
    requires n <= |cs|
  {
    && (Left(table, cs, n) <= target <==> BusyBytes(table) <= target)
    && (forall j: nat :: j < n ==> Left(table, cs, j) > target)
    && (n > 0 ==> Left(table, cs, n) + cs[n - 1].size > target)
  }

  lemma GreedyJustEnough(table: map<string, ChunkMeta>, cs: seq<Candidate>, target: nat)
    requires Matches(table, cs) && NamesAll(table, cs) && Bytes(table) > target
    ensures JustEnough(table, cs, Taken(cs, Bytes(table) - target, 0), target)
  {
    AllCandidatesGone(table, cs);
    LeftIs(table, cs);
    GreedyStops(table, cs, Bytes(table) - target, target);
  }

  lemma GreedyStops(table: map<string, ChunkMeta>, cs: seq<Candidate>, need: nat, target: nat)
    requires need == Bytes(table) - target > 0 && Accounted(table, cs) && Left(table, cs, |cs|) == BusyBytes(table)
    ensures JustEnough(table, cs, Taken(cs, need, 0), target)
  {
    var n := Taken(cs, need, 0);
    TakenExact(cs, need, 0);
    FreedMonotone(cs, n, |cs|);
    EnoughLeft(table, cs, n, target);
  }

  /** What is left after any number of victims is what they did not free. */
  ghost predicate Accounted(table: map<string, ChunkMeta>, cs: seq<Candidate>) {
    forall j: nat :: j <= |cs| ==> Left(table, cs, j) == Bytes(table) - Freed(cs, j)
  }

  lemma LeftIs(table: map<string, ChunkMeta>, cs: seq<Candidate>)
    requires Matches(table, cs)
    ensures Accounted(table, cs)
  {
    forall j: nat | j <= |cs|
      ensures Left(table, cs, j) == Bytes(table) - Freed(cs, j)
    {
      BytesWithout(table, cs, j);
    }
  }

  lemma EnoughLeft(table: map<string, ChunkMeta>, cs: seq<Candidate>, n: nat, target: nat)
    requires n <= |cs| && Bytes(table) > target && Accounted(table, cs) && FirstEnough(cs, Bytes(table) - target, n)
    requires Left(table, cs, |cs|) == BusyBytes(table) && Freed(cs, n) <= Freed(cs, |cs|)
    ensures JustEnough(table, cs, n, target)
  {
    assert Left(table, cs, n) == Bytes(table) - Freed(cs, n);
    if n > 0 {
      assert Freed(cs, n) == Freed(cs, n - 1) + cs[n - 1].size && Freed(cs, n - 1) < Bytes(table) - target;
    }
  }

  /** What one run may do to a table: nothing below the limit, and otherwise just enough. */
  ghost predicate Bounded(table: map<string, ChunkMeta>, cs: seq<Candidate>, n: nat, maxSize: u64, targetSize: u64)
    requires n <= |cs|
  {
    if Bytes(table) <= maxSize then n == 0 else JustEnough(table, cs, n, targetSize)
  }

  /** Every eviction run is bounded, whatever the table. */
  lemma EvictionBound(table: map<string, ChunkMeta>, rows: Rows, maxSize: u64, targetSize: u64)
    requires Lists(table, rows) && targetSize <= maxSize
    ensures Bounded(table, Oldest(rows), VictimCount(rows, Oldest(rows), maxSize, targetSize), maxSize, targetSize)
  {
    TotalIsBytes(table, rows);
    if Bytes(table) > maxSize {
      OldestMatches(table, rows);
      GreedyJustEnough(table, Oldest(rows), targetSize);
    }
  }

  /**
   * In every crash-safe state all chunks are complete, so a run that starts above the limit ends within the target.
   */
  lemma EvictionReachesTarget(names: Naming, cs: nat, s: State, table: map<string, ChunkMeta>, rows: Rows, maxSize: u64,
                              targetSize: u64)
    requires cs > 0 && CrashSafe(names, cs, s) && Represents(table, s.entries)
    requires Lists(table, rows) && targetSize <= maxSize && Bytes(table) > maxSize
    ensures Left(table, Oldest(rows), VictimCount(rows, Oldest(rows), maxSize, targetSize)) <= targetSize
  {
    EvictionBound(table, rows, maxSize, targetSize);
    forall k | k in table
      ensures table[k].status.Complete?
    {
      var id := Decode(k).value;
      assert Encode(id) == k;
      assert id in s.entries;
    }
    assert (map k | k in table && !table[k].status.Complete? :: table[k]) == map[];
  }

  /** Least recently used first: no victim is newer than a complete chunk that stays. */
  lemma EvictionIsLru(table: map<string, ChunkMeta>, rows: Rows, n: nat, k: string)
    requires Lists(table, rows) && n <= |Oldest(rows)|
    requires k in table - Keys(Oldest(rows), n) && table[k].status.Complete?
    ensures forall i :: 0 <= i < n ==> Oldest(rows)[i].accessedAt <= table[k].lastAccessedAt
  {
    OldestMatches(table, rows);
    OldestSorted(rows);
    StaysBehind(table, Oldest(rows), n, k);
  }

  lemma StaysBehind(table: map<string, ChunkMeta>, cs: seq<Candidate>, n: nat, k: string)
    requires NamesAll(table, cs) && Sorted(cs, NotNewer) && n <= |cs|
    requires k in table - Keys(cs, n) && table[k].status.Complete?
    ensures forall i :: 0 <= i < n ==> cs[i].accessedAt <= table[k].lastAccessedAt
  {
    var j :| 0 <= j < |cs| && cs[j] == Candidate(k, table[k].size, table[k].lastAccessedAt);
    KeysAre(cs, n, k);
    assert forall i :: 0 <= i < n ==> NotNewer(cs[i], cs[j]);
  }

  // --- one run ---

  function Without(s: State, id: ChunkId, disk: Disk): State {
    s.(files := if id in disk.undeletable then s.files else s.files - {id}, entries := s.entries - {id})
  }

  /** The state without the first `n` chunks of `ids`. */
  function WithoutFirst(s: State, ids: seq<ChunkId>, n: nat, disk: Disk): State
    requires n <= |ids|
  {
    if n == 0 then s else Without(WithoutFirst(s, ids, n - 1, disk), ids[n - 1], disk)
  }

  /** The writes that remove them: each chunk's file and then its entry. */
  function RemovalLog(ids: seq<ChunkId>, n: nat, disk: Disk): Log
    requires n <= |ids|
  {
    if n == 0 then []
    else RemovalLog(ids, n - 1, disk) + DeleteChunkFile(ids[n - 1], disk) + [DeleteEntry(ids[n - 1])]
  }

  /** In the vocabulary of the log of atomic writes, that is the eviction of those chunks. */
  lemma {:induction false} WithoutFirstIsEviction(s: State, ids: seq<ChunkId>, n: nat, disk: Disk)
    requires n <= |ids|
    ensures RemovalLog(ids, n, disk) == EvictLog(ids[..n], disk)
    ensures WithoutFirst(s, ids, n, disk) == Replay(s, EvictLog(ids[..n], disk))
  {
    if n > 0 {
      WithoutFirstIsEviction(s, ids, n - 1, disk);
      PrefixSnoc(ids, n - 1);
      EvictMore(s, ids[..n - 1], ids[n - 1], ids[..n], disk);
    }
  }

  lemma PrefixSnoc(ids: seq<ChunkId>, n: nat)
    requires n < |ids|
    ensures ids[..n + 1] == ids[..n] + [ids[n]]
  {
  }

  lemma EvictMore(s: State, ids: seq<ChunkId>, id: ChunkId, more: seq<ChunkId>, disk: Disk)
    requires more == ids + [id]
    ensures EvictLog(more, disk) == EvictLog(ids, disk) + DeleteChunkFile(id, disk) + [DeleteEntry(id)]
    ensures Replay(s, EvictLog(more, disk)) == Without(Replay(s, EvictLog(ids, disk)), id, disk)
  {
    var log := EvictLog(ids, disk);
    assert more[..|more| - 1] == ids && more[|more| - 1] == id;
    assert EvictLog(more, disk) == log + DeleteChunkFile(id, disk) + [DeleteEntry(id)];
    EvictedOne(s, log, id, disk);
  }

  lemma EvictedOne(s: State, log: Log, id: ChunkId, disk: Disk)
    ensures Replay(s, log + DeleteChunkFile(id, disk) + [DeleteEntry(id)]) == Without(Replay(s, log), id, disk)
  {
    ReplayOne(s, log + DeleteChunkFile(id, disk), DeleteEntry(id));
    if id in disk.undeletable {
      assert log + DeleteChunkFile(id, disk) == log;
    } else {
      ReplayOne(s, log, DeleteFile(id));
    }
  }

  lemma KeysMore(table: map<string, ChunkMeta>, cs: seq<Candidate>, n: nat)
    requires n < |cs|
    ensures table - Keys(cs, n) - {cs[n].dbKey} == table - Keys(cs, n + 1)
  {
  }

  /** Every key of the chunk table is a printed chunk id, so nothing is skipped for want of decoding. */
  lemma {:induction false} KeysDecode(table: map<string, ChunkMeta>, entries: map<ChunkId, ChunkMeta>, cs: seq<Candidate>, n: nat)
    returns (ids: seq<ChunkId>)
    requires n <= |cs| && Matches(table, cs) && Represents(table, entries)
    ensures |ids| == n && PrintedFrom(cs, ids, n)
  {
    if n == 0 {
      ids := [];
    } else {
      var init := KeysDecode(table, entries, cs, n - 1);
      assert Describes(table, cs[n - 1]);
      ids := init + [Decode(cs[n - 1].dbKey).value];
      PrintExtends(cs, init, ids, n - 1);
    }
  }

  lemma {:induction false} PrintExtends(cs: seq<Candidate>, ids: seq<ChunkId>, more: seq<ChunkId>, n: nat)
    requires n <= |cs| && n <= |ids| && ids <= more && PrintedFrom(cs, ids, n)
    ensures PrintedFrom(cs, more, n)
  {
    if n > 0 {
      PrintExtends(cs, ids, more, n - 1);
    }
  }

  /** What a run needs to know about its scan. */
  lemma ScanFacts(table: map<string, ChunkMeta>, rows: Rows, oldest: seq<Candidate>, maxSize: u64, targetSize: u64)
    requires Lists(table, rows) && oldest == Oldest(rows) && targetSize <= maxSize
    ensures var n := VictimCount(rows, oldest, maxSize, targetSize);
            && Bytes(table) - Bytes(table - Keys(oldest, n)) == Freed(oldest, n)
            && (n == 0 ==> table - Keys(oldest, n) == table)
  {
    OldestMatches(table, rows);
    BytesWithout(table, oldest, VictimCount(rows, oldest, maxSize, targetSize));
  }

  lemma ScanDecodes(table: map<string, ChunkMeta>, entries: map<ChunkId, ChunkMeta>, rows: Rows) returns (ids: seq<ChunkId>)
    requires Lists(table, rows) && Represents(table, entries)
    ensures |ids| == |Oldest(rows)| && PrintedFrom(Oldest(rows), ids, |ids|)
  {
    OldestMatches(table, rows);
    ids := KeysDecode(table, entries, Oldest(rows), |Oldest(rows)|);
  }

  class EvictionManager {
    const db: MetadataDb
    const storage: Storage
    const maxSize: u64
    const targetSize: u64

    ghost predicate Valid()
      reads this, db, storage
    {
      db.Valid() && storage.Valid() && db.journal == storage.journal && targetSize <= maxSize
    }

    constructor (db: MetadataDb, storage: Storage, maxSize: u64, targetSize: u64)
      requires db.Valid() && storage.Valid() && db.journal == storage.journal && targetSize <= maxSize
      ensures Valid()
      ensures this.db == db && this.storage == storage && this.maxSize == maxSize && this.targetSize == targetSize
    {
      this.db, this.storage, this.maxSize, this.targetSize := db, storage, maxSize, targetSize;
    }

    /** The local half of the durable state, next to a given upstream store. */
    ghost function StateWith(upstream: map<string, Object>): State
      reads db, storage
    {
      State(upstream, db.objects, db.entries, storage.files)
    }

    /** Adds up the registered bytes and collects the complete chunks. */
    static method Scan(chunks: Rows) returns (totalSize: nat, candidates: seq<Candidate>)
      ensures totalSize == Total(chunks, |chunks|) && candidates == Candidates(chunks, |chunks|)
    {
      totalSize, candidates := 0, [];
      for i := 0 to |chunks|
        invariant totalSize == Total(chunks, i)
        invariant candidates == Candidates(chunks, i)
      {
        var (dbKey, chunk) := chunks[i];
        totalSize := totalSize + chunk.size;
        if chunk.status == Complete {
          candidates := candidates + [Candidate(dbKey, chunk.size, chunk.lastAccessedAt)];
        }
      }
    }

    /** Removes one candidate, file first; a key that did not decode would be skipped. */
    method EvictOne(c: Candidate, disk: Disk, ghost id: ChunkId, ghost upstream: map<string, Object>) returns (freed: nat)
      requires Valid() && c.dbKey == Encode(id)
      modifies db`chunks, db`entries, storage`fs, storage`files, db.journal
      ensures Valid()
      ensures freed == c.size
      ensures db.chunks == old(db.chunks) - {c.dbKey}
      ensures StateWith(upstream) == Without(old(StateWith(upstream)), id, disk)
      ensures db.journal.log == old(db.journal.log) + DeleteChunkFile(id, disk) + [DeleteEntry(id)]
    {
      freed := 0;
      DecodeEncode(id);
      match Decode(c.dbKey) {
        case None =>
        case Some(chunk) =>
          var _ := storage.DeleteChunk(chunk, disk);
          db.DeleteChunk(chunk);
          freed := c.size;
      }
    }

    /** Evicts from the front until enough bytes are freed; `n` counts the victims. */
    method EvictUntil(candidates: seq<Candidate>, bytesToEvict: nat, disk: Disk, ghost ids: seq<ChunkId>,
                      ghost upstream: map<string, Object>)
      returns (evicted: nat, n: nat)
      requires Valid() && |ids| == |candidates| && PrintedFrom(candidates, ids, |ids|)
      modifies db`chunks, db`entries, storage`fs, storage`files, db.journal
      ensures Valid()
      ensures n == Taken(candidates, bytesToEvict, 0)
      ensures StateWith(upstream) == WithoutFirst(old(StateWith(upstream)), ids, n, disk)
      ensures db.journal.log == old(db.journal.log) + RemovalLog(ids, n, disk)
      ensures db.chunks == old(db.chunks) - Keys(candidates, n)
      ensures evicted == Freed(candidates, n)
    {
      evicted, n := 0, 0;
      assert db.chunks - Keys(candidates, 0) == db.chunks;
      while n < |candidates| && evicted < bytesToEvict
        invariant n <= |candidates| && evicted == Freed(candidates, n)
        invariant Taken(candidates, bytesToEvict, n) == Taken(candidates, bytesToEvict, 0)
        invariant Valid()
        invariant StateWith(upstream) == WithoutFirst(old(StateWith(upstream)), ids, n, disk)
        invariant db.journal.log == old(db.journal.log) + RemovalLog(ids, n, disk)
        invariant db.chunks == old(db.chunks) - Keys(candidates, n)
      {
        KeysMore(old(db.chunks), candidates, n);
        PrintAt(candidates, ids, |ids|, n);
        Regroup3(old(db.journal.log), RemovalLog(ids, n, disk), DeleteChunkFile(ids[n], disk), [DeleteEntry(ids[n])]);
        var freed := EvictOne(candidates[n], disk, ids[n], upstream);
        evicted := evicted + freed;
        n := n + 1;
      }
    }

    /** Scans the table: the total, the eviction candidates oldest first, and the chunks they stand for. */
    method Survey() returns (totalSize: nat, candidates: seq<Candidate>, ghost rows: Rows, ghost ids: seq<ChunkId>)
      requires Valid()
      ensures Lists(db.chunks, rows) && totalSize == Total(rows, |rows|) && candidates == Oldest(rows)
      ensures |ids| == |candidates| && PrintedFrom(candidates, ids, |ids|)
    {
      var chunks := db.ListAllChunks();
      rows := chunks;
      ids := ScanDecodes(db.chunks, db.entries, rows);
      totalSize, candidates := Scan(chunks);
      candidates := ByAge(candidates);
    }

    /**
     * One eviction run: the bytes freed, the scan it was based on, the candidates in eviction order, the chunks they
     * stand for, and how many of them went.
     */
    method CheckAndEvict(disk: Disk, ghost upstream: map<string, Object>)
      returns (evicted: nat, ghost rows: Rows, ghost oldest: seq<Candidate>, ghost ids: seq<ChunkId>, ghost n: nat)
      requires Valid()
      modifies db`chunks, db`entries, storage`fs, storage`files, db.journal
      ensures Valid()
      ensures Lists(old(db.chunks), rows) && oldest == Oldest(rows)
      ensures |ids| == |oldest| && PrintedFrom(oldest, ids, |ids|)
      ensures n == VictimCount(rows, oldest, maxSize, targetSize)
      ensures StateWith(upstream) == WithoutFirst(old(StateWith(upstream)), ids, n, disk)
      ensures db.journal.log == old(db.journal.log) + RemovalLog(ids, n, disk)
      ensures db.chunks == old(db.chunks) - Keys(oldest, n)
      ensures evicted == Bytes(old(db.chunks)) - Bytes(db.chunks)
    {
      var totalSize, candidates;
      totalSize, candidates, rows, ids := Survey();
      oldest := candidates;
      assert StateWith(upstream) == old(StateWith(upstream));
      ScanFacts(db.chunks, rows, oldest, maxSize, targetSize);
      if totalSize <= maxSize {
        assert VictimCount(rows, oldest, maxSize, targetSize) == 0;
        return 0, rows, oldest, ids, 0;
      }
      var bytesToEvict := if totalSize < targetSize then 0 else totalSize - targetSize;
      evicted, n := EvictUntil(candidates, bytesToEvict, disk, ids, upstream);
    }
  }
}

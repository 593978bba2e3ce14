/** Ranged GET: whatever mix of cached and cold chunks serves it, the stream carries upstream's bytes. */
module Reading {
  import opened Basics
  import opened ChunkKey
  import opened Blocks
  import opened CacheModel
  import opened Coherence
  import opened Operations

  /** The bytes a plain store answers for [start, end). */
  function Slice(content: seq<byte>, start: nat, end: nat): seq<byte> {
    if start < Min(end, |content|) then content[start..Min(end, |content|)] else []
  }

  /** A cached chunk whose file is gone. */
  predicate Lost(s: State, id: ChunkId) {
    IsHit(s, id) && id !in s.files
  }

  /** The local record is what upstream reports, as after a HEAD. */
  predicate Current(s: State, key: string) {
    key in s.upstream && key in s.objects && s.objects[key] == s.upstream[key].Meta()
  }

  /** After a refresh, the file of a registered chunk is that chunk of upstream's content. */
  lemma HitFileRight(names: Naming, cs: nat, s: State, id: ChunkId)
    requires cs > 0 && CrashSafe(names, cs, s) && Current(s, id.key) && IsHit(s, id) && id in s.files
    ensures s.files[id] == Block(s.upstream[id.key].content, cs, id.idx)
  {
    assert EntryRight(names, cs, s.objects[id.key], id, s.entries[id], s.files);
    assert NamedBy(names, s.upstream[id.key]);
  }

  lemma ReadChunkRight(names: Naming, cs: nat, s: State, key: string, start: nat, end: nat, idx: u64)
    requires cs > 0 && CrashSafe(names, cs, s) && Current(s, key)
    requires start < end <= |s.upstream[key].content|
    requires Quotient(start, cs) <= idx <= Quotient(end - 1, cs)
    ensures var content := s.upstream[key].content;
            var lo, hi := ReadStart(cs, start, idx), ReadEnd(|content|, cs, end, idx);
            && 0 <= lo <= hi <= |content|
            && ReadChunk(s, key, cs, |content|, start, end, idx)
               == if Lost(s, ChunkId(key, idx)) then Broken else Data(content[lo..hi])
  {
    var content := s.upstream[key].content;
    var id := ChunkId(key, idx);
    WindowInsideBlock(|content|, cs, start, end, idx);
    WindowOfBlock(content, cs, start, end, idx);
    if IsHit(s, id) && id in s.files {
      HitFileRight(names, cs, s, id);
    }
  }

  lemma {:induction false} ContentsSnoc(ps: seq<Piece>, p: Piece)
    ensures Contents(ps + [p]) == if Unbroken(ps) && p.Data? then Contents(ps) + p.bytes else Contents(ps)
    ensures Unbroken(ps + [p]) <==> Unbroken(ps) && p.Data?
  {
    var all := ps + [p];
    assert forall q :: q in all <==> q in ps || q == p;
    if ps == [] {
      assert all == [p] && all[1..] == [];
      assert p.Data? ==> p.bytes + Contents([]) == p.bytes;
    } else if ps[0].Broken? {
      assert ps[0] in ps;
    } else {
      var rest := ps[1..];
      assert all[1..] == rest + [p];
      ContentsSnoc(rest, p);
      assert forall q :: q in ps <==> q == ps[0] || q in rest;
      if Unbroken(ps) && p.Data? {
        assert ps[0].bytes + (Contents(rest) + p.bytes) == (ps[0].bytes + Contents(rest)) + p.bytes;
      }
    }
  }

  /** First byte not yet served once the chunks below `limit` are done. */
  function Frontier(len: nat, cs: nat, start: nat, end: nat, limit: nat): int
    requires cs > 0
  {
    if limit <= Quotient(start, cs) then start else ReadEnd(len, cs, end, limit - 1)
  }

  lemma FrontierBounds(len: nat, cs: nat, start: nat, end: nat, limit: nat)
    requires cs > 0 && start < end <= len
    requires 0 <= Quotient(start, cs) <= limit <= Quotient(end - 1, cs) + 1
    ensures start <= Frontier(len, cs, start, end, limit) <= end
  {
    if limit > Quotient(start, cs) {
      WindowInsideBlock(len, cs, start, end, limit - 1);
    }
  }

  lemma FrontierStep(len: nat, cs: nat, start: nat, end: nat, limit: nat)
    requires cs > 0 && start < end <= len
    requires Quotient(start, cs) < limit <= Quotient(end - 1, cs) + 1
    ensures Frontier(len, cs, start, end, limit - 1) == ReadStart(cs, start, limit - 1)
    ensures ReadStart(cs, start, limit - 1) < Frontier(len, cs, start, end, limit) <= end
    ensures limit == Quotient(end - 1, cs) + 1 ==> Frontier(len, cs, start, end, limit) == end
  {
    DivBounds(start, cs);
    DivBounds(end - 1, cs);
    WindowInsideBlock(len, cs, start, end, limit - 1);
    WindowsMeet(len, cs, start, end, limit - 1);
    if limit - 1 > Quotient(start, cs) {
      WindowsMeet(len, cs, start, end, limit - 2);
    }
  }

  /** The stream delivers `bytes` if `whole`; otherwise a prefix of them and then an error. */
  ghost predicate Serves(ps: seq<Piece>, bytes: seq<byte>, whole: bool) {
    && Contents(ps) <= bytes
    && (Unbroken(ps) <==> whole)
    && (whole ==> Contents(ps) == bytes)
  }

  /** One more stream item: a correct stream and a correct item make a correct stream. */
  lemma ServesMore(ps: seq<Piece>, bytes: seq<byte>, whole: bool, p: Piece, more: seq<byte>)
    requires Serves(ps, bytes, whole)
    requires p.Data? ==> p.bytes == more
    ensures Serves(ps + [p], bytes + more, whole && p.Data?)
  {
    ContentsSnoc(ps, p);
    if !(whole && p.Data?) {
      PrefixExtends(Contents(ps), bytes, more);
    }
  }

  lemma SplitSlice(content: seq<byte>, start: nat, mid: nat, hi: nat)
    requires start <= mid <= hi <= |content|
    ensures content[start..hi] == content[start..mid] + content[mid..hi]
  {
  }

  lemma PrefixExtends(a: seq<byte>, b: seq<byte>, c: seq<byte>)
    requires a <= b
    ensures a <= b + c
  {
  }

  /** None of the chunks in [begin, limit) is lost. */
  ghost predicate NoneLost(s: State, key: string, begin: nat, limit: nat) {
    forall id: ChunkId :: id.key == key && begin <= id.idx < limit ==> !Lost(s, id)
  }

  lemma NoneLostStep(s: State, key: string, begin: nat, limit: nat)
    requires begin < limit <= TWO_TO_THE_64
    ensures NoneLost(s, key, begin, limit) <==>
              NoneLost(s, key, begin, limit - 1) && !Lost(s, ChunkId(key, limit - 1))
  {
    forall id: ChunkId | id.key == key && id.idx == limit - 1
      ensures id == ChunkId(key, limit - 1)
    {
    }
  }

  /** The bytes served once the chunks below `limit` are done. */
  function ServedBytes(content: seq<byte>, cs: nat, start: nat, end: nat, limit: nat): seq<byte>
    requires cs > 0 && start < end <= |content|
    requires Quotient(start, cs) <= limit <= Quotient(end - 1, cs) + 1
  {
    FrontierBounds(|content|, cs, start, end, limit);
    content[start..Frontier(|content|, cs, start, end, limit)]
  }

  lemma ServedBytesStep(content: seq<byte>, cs: nat, start: nat, end: nat, limit: nat)
    requires cs > 0 && start < end <= |content|
    requires Quotient(start, cs) <= limit <= Quotient(end - 1, cs) + 1
    ensures limit == Quotient(start, cs) ==> ServedBytes(content, cs, start, end, limit) == []
    ensures limit > Quotient(start, cs) ==>
              var lo, hi := ReadStart(cs, start, limit - 1), ReadEnd(|content|, cs, end, limit - 1);
              && 0 <= lo <= hi <= |content|
              && ServedBytes(content, cs, start, end, limit)
                 == ServedBytes(content, cs, start, end, limit - 1) + content[lo..hi]
    ensures limit == Quotient(end - 1, cs) + 1 && limit > Quotient(start, cs) ==>
              ServedBytes(content, cs, start, end, limit) == content[start..end]
  {
    if limit > Quotient(start, cs) {
      FrontierStep(|content|, cs, start, end, limit);
      FrontierBounds(|content|, cs, start, end, limit - 1);
      SplitSlice(content, start, Frontier(|content|, cs, start, end, limit - 1),
                 Frontier(|content|, cs, start, end, limit));
    }
  }

  /** One more chunk: what is served stays right. */
  lemma ReadChunksStep(names: Naming, cs: nat, s: State, key: string, start: nat, end: nat, limit: nat, ps: seq<Piece>)
    requires cs > 0 && CrashSafe(names, cs, s) && Current(s, key)
    requires start < end <= |s.upstream[key].content|
    requires Quotient(start, cs) < limit <= Quotient(end - 1, cs) + 1 <= TWO_TO_THE_64
    requires Serves(ps, ServedBytes(s.upstream[key].content, cs, start, end, limit - 1),
                    NoneLost(s, key, Quotient(start, cs), limit - 1))
    ensures Serves(ps + [ReadChunk(s, key, cs, |s.upstream[key].content|, start, end, limit - 1)],
                   ServedBytes(s.upstream[key].content, cs, start, end, limit),
                   NoneLost(s, key, Quotient(start, cs), limit))
  {
    var content := s.upstream[key].content;
    ServedBytesStep(content, cs, start, end, limit);
    ReadChunkRight(names, cs, s, key, start, end, limit - 1);
    NoneLostStep(s, key, Quotient(start, cs), limit);
    var lo, hi := ReadStart(cs, start, limit - 1), ReadEnd(|content|, cs, end, limit - 1);
    ServesMore(ps, ServedBytes(content, cs, start, end, limit - 1), NoneLost(s, key, Quotient(start, cs), limit - 1),
               ReadChunk(s, key, cs, |content|, start, end, limit - 1), content[lo..hi]);
  }

  lemma {:induction false} ReadChunksRight(names: Naming, cs: nat, s: State, key: string, start: nat, end: nat, limit: nat)
    requires cs > 0 && CrashSafe(names, cs, s) && Current(s, key)
    requires start < end <= |s.upstream[key].content|
    requires Quotient(start, cs) <= limit <= Quotient(end - 1, cs) + 1
    ensures var content := s.upstream[key].content;
            Serves(ReadChunks(s, key, cs, |content|, start, end, Quotient(start, cs), limit),
                   ServedBytes(content, cs, start, end, limit),
                   NoneLost(s, key, Quotient(start, cs), limit))
    decreases limit
  {
    var content := s.upstream[key].content;
    if limit > Quotient(start, cs) {
      ReadChunksRight(names, cs, s, key, start, end, limit - 1);
      ReadChunksStep(names, cs, s, key, start, end, limit,
                     ReadChunks(s, key, cs, |content|, start, end, Quotient(start, cs), limit - 1));
    } else {
      ServedBytesStep(content, cs, start, end, limit);
    }
  }

  /** The registered chunks that [start, end) needs are all on disk. */
  ghost predicate RangeOnDisk(s: State, key: string, cs: nat, len: nat, start: nat, end: nat)
    requires cs > 0
  {
    start >= Min(end, len) || NoneLost(s, key, Quotient(start, cs), Quotient(Min(end, len) - 1, cs) + 1)
  }

  /**
   * From any crash-safe state, a ranged GET delivers a prefix of upstream's bytes for the range and never a wrong
   * byte. It fails exactly when some chunk of the range is registered but its file is gone; otherwise it delivers
   * the whole range.
   */
  lemma ReadRight(names: Naming, cs: nat, s: State, key: string, start: nat, end: nat)
    requires cs > 0 && CrashSafe(names, cs, s) && Current(s, key)
    ensures var content := s.upstream[key].content;
            Serves(ReadPieces(s, key, cs, |content|, start, end), Slice(content, start, end),
                   RangeOnDisk(s, key, cs, |content|, start, end))
  {
    var content := s.upstream[key].content;
    var stop := Min(end, |content|);
    if start < stop {
      ReadNonempty(names, cs, s, key, start, stop);
      assert ReadPieces(s, key, cs, |content|, start, end)
             == ReadChunks(s, key, cs, |content|, start, stop, Quotient(start, cs), Quotient(stop - 1, cs) + 1);
    } else {
      EmptyItem();
    }
  }

  lemma EmptyItem()
    ensures Serves([Data([])], [], true)
  {
  }

  lemma ReadNonempty(names: Naming, cs: nat, s: State, key: string, start: nat, end: nat)
    requires cs > 0 && CrashSafe(names, cs, s) && Current(s, key)
    requires start < end <= |s.upstream[key].content|
    ensures Quotient(start, cs) <= Quotient(end - 1, cs)
    ensures var content := s.upstream[key].content;
            var limit := Quotient(end - 1, cs) + 1;
            Serves(ReadChunks(s, key, cs, |content|, start, end, Quotient(start, cs), limit), content[start..end],
                   NoneLost(s, key, Quotient(start, cs), limit))
  {
    DivBounds(start, cs);
    DivUnique(end - 1, cs, Quotient(start, cs));
    var limit := Quotient(end - 1, cs) + 1;
    ReadChunksRight(names, cs, s, key, start, end, limit);
    ServedBytesStep(s.upstream[key].content, cs, start, end, limit);
  }

  /** In particular, whatever has been lost: a prefix, and everything if the stream does not break. */
  lemma ReadPrefix(names: Naming, cs: nat, s: State, key: string, content: seq<byte>, start: nat, end: nat)
    requires cs > 0 && CrashSafe(names, cs, s) && Current(s, key) && content == s.upstream[key].content
    ensures |content| < TWO_TO_THE_64
    ensures var ps := ReadPieces(s, key, cs, |content|, start, end);
            && Contents(ps) <= Slice(content, start, end)
            && (Unbroken(ps) ==> Contents(ps) == Slice(content, start, end))
  {
    ReadRight(names, cs, s, key, start, end);
  }

  lemma BackedReadFinishes(names: Naming, cs: nat, s: State, key: string, start: nat, end: nat)
    requires cs > 0 && CrashSafe(names, cs, s) && Current(s, key) && Backed(s)
    ensures var content := s.upstream[key].content;
            Serves(ReadPieces(s, key, cs, |content|, start, end), Slice(content, start, end), true)
  {
    ReadRight(names, cs, s, key, start, end);
  }
}

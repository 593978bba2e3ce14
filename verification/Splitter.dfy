/** The streaming splitter of a PUT refines the block partition of the body. */
module Splitter {
  import opened Basics
  import opened ChunkKey
  import opened Blocks
  import opened CacheModel

  /** The upload channel stays open for all of `pieces`. */
  predicate ChannelOpen(pieces: seq<Piece>, closedAt: Option<nat>) {
    closedAt.None? || closedAt.value >= |pieces|
  }

  /** The disk takes every chunk with index in [begin, limit). */
  ghost predicate Writable(key: string, begin: nat, limit: nat, disk: Disk) {
    forall id: ChunkId :: id in disk.unwritable && id.key == key ==> !(begin <= id.idx < limit)
  }

  lemma ContentsCons(pieces: seq<Piece>)
    requires pieces != [] && pieces[0].Data?
    ensures Contents(pieces) == pieces[0].bytes + Contents(pieces[1..])
    ensures Unbroken(pieces) <==> Unbroken(pieces[1..])
  {
    assert pieces == [pieces[0]] + pieces[1..];
  }

  lemma NumChunksMonotone(a: nat, b: nat, cs: nat)
    requires cs > 0 && a <= b
    ensures 0 <= Quotient(a, cs) <= NumChunks(a, cs) <= NumChunks(b, cs)
    ensures Quotient(a, cs) <= Quotient(b, cs) <= NumChunks(b, cs)
  {
    DivBounds(a, cs);
    DivBounds(b, cs);
    DivUnique(b, cs, Quotient(a, cs));
    if a > 0 {
      DivBounds(a - 1, cs);
      DivUnique(b - 1, cs, Quotient(a - 1, cs));
    }
    FullBelowCount(a, cs);
    FullBelowCount(b, cs);
  }

  lemma FullBelowCount(a: nat, cs: nat)
    requires cs > 0
    ensures Quotient(a, cs) <= NumChunks(a, cs)
  {
    DivBounds(a, cs);
    if Quotient(a, cs) > 0 {
      IndexInRange(a, cs, Quotient(a, cs) - 1);
      assert (Quotient(a, cs) - 1) * cs == Quotient(a, cs) * cs - cs;
    }
  }

  /**
   * What splitting the remaining pieces may answer: `body` is the whole body, `full` counts the chunks already
   * written, `n` the chunks of the whole body.
   */
  ghost predicate Outcome(key: string, accepted: seq<byte>, pieces: seq<Piece>, closedAt: Option<nat>, disk: Disk,
                          body: seq<byte>, full: nat, n: nat, r: Ingested)
  {
    && accepted <= r.accepted <= body
    && (r.ok <==> Unbroken(pieces) && ChannelOpen(pieces, closedAt) && Writable(key, full, n, disk))
    && (r.ok ==> r.accepted == body && r.written == n)
  }

  /**
   * However the stream is cut into pieces: the splitter reaches the end exactly when no piece is an error, the
   * upload channel stays open and the disk takes every chunk; it has then accepted the whole body and written
   * as many chunks as cleanup and copy will recompute. Otherwise it has accepted a prefix of the body.
   */
  lemma {:induction false} IngestOutcome(key: string, accepted: seq<byte>, pieces: seq<Piece>, closedAt: Option<nat>,
                                         cs: nat, disk: Disk)
    requires cs > 0
    requires |accepted| + |Contents(pieces)| < TWO_TO_THE_64
    ensures var body := accepted + Contents(pieces);
            Outcome(key, accepted, pieces, closedAt, disk, body, Quotient(|accepted|, cs), NumChunks(|body|, cs),
                    Ingest(key, accepted, pieces, closedAt, cs, disk))
    decreases |pieces|
  {
    if pieces == [] {
      assert accepted + Contents(pieces) == accepted;
      EmptyStream(key, accepted, closedAt, cs, disk);
    } else if pieces[0].Broken? {
      assert pieces[0] in pieces;
    } else if closedAt != Some(0) {
      ContentsCons(pieces);
      IngestOutcome(key, accepted + pieces[0].bytes, pieces[1..], AfterOne(closedAt), cs, disk);
      IngestDataPiece(key, accepted, pieces, closedAt, cs, disk);
    }
  }

  lemma IngestDataPiece(key: string, accepted: seq<byte>, pieces: seq<Piece>, closedAt: Option<nat>, cs: nat, disk: Disk)
    requires cs > 0 && pieces != [] && pieces[0].Data? && closedAt != Some(0)
    requires |accepted| + |Contents(pieces)| < TWO_TO_THE_64
    requires var more, rest := accepted + pieces[0].bytes, pieces[1..];
             var body := more + Contents(rest);
             && |body| < TWO_TO_THE_64
             && Outcome(key, more, rest, AfterOne(closedAt), disk, body, Quotient(|more|, cs), NumChunks(|body|, cs),
                        Ingest(key, more, rest, AfterOne(closedAt), cs, disk))
    ensures var body := accepted + Contents(pieces);
            Outcome(key, accepted, pieces, closedAt, disk, body, Quotient(|accepted|, cs), NumChunks(|body|, cs),
                    Ingest(key, accepted, pieces, closedAt, cs, disk))
  {
    var more, rest := accepted + pieces[0].bytes, pieces[1..];
    var body := more + Contents(rest);
    ContentsCons(pieces);
    assert body == accepted + Contents(pieces);
    NumChunksMonotone(|accepted|, |more|, cs);
    NumChunksMonotone(|more|, |body|, cs);
    OutcomeStep(key, accepted, pieces, closedAt, disk, body, Quotient(|accepted|, cs), Quotient(|more|, cs), NumChunks(|body|, cs),
                Ingest(key, more, rest, AfterOne(closedAt), cs, disk));
    IngestUnroll(key, accepted, pieces, closedAt, cs, disk);
  }

  lemma IngestUnroll(key: string, accepted: seq<byte>, pieces: seq<Piece>, closedAt: Option<nat>, cs: nat, disk: Disk)
    requires cs > 0 && pieces != [] && pieces[0].Data? && closedAt != Some(0)
    requires |accepted| + |Contents(pieces)| < TWO_TO_THE_64
    ensures var more := accepted + pieces[0].bytes;
            && |more| + |Contents(pieces[1..])| < TWO_TO_THE_64
            && Quotient(|accepted|, cs) <= Quotient(|more|, cs) < TWO_TO_THE_64
            && var reached := FirstUnwritable(key, Quotient(|accepted|, cs), Quotient(|more|, cs), disk);
               Ingest(key, accepted, pieces, closedAt, cs, disk)
               == if reached < Quotient(|more|, cs) then Ingested(more, reached, false)
                  else Ingest(key, more, pieces[1..], AfterOne(closedAt), cs, disk)
  {
    ContentsCons(pieces);
    NumChunksMonotone(|accepted|, |accepted + pieces[0].bytes|, cs);
    DivBounds(|accepted + pieces[0].bytes|, cs);
  }

  /** One piece further: the answer for the rest is the answer for the whole, unless a full chunk was refused. */
  lemma OutcomeStep(key: string, accepted: seq<byte>, pieces: seq<Piece>, closedAt: Option<nat>, disk: Disk,
                    body: seq<byte>, full: nat, full': nat, n: nat, r: Ingested)
    requires pieces != [] && pieces[0].Data? && closedAt != Some(0)
    requires full <= full' <= n <= TWO_TO_THE_64
    requires var more := accepted + pieces[0].bytes;
             more <= body && Outcome(key, more, pieces[1..], AfterOne(closedAt), disk, body, full', n, r)
    ensures var more, reached := accepted + pieces[0].bytes, FirstUnwritable(key, full, full', disk);
            Outcome(key, accepted, pieces, closedAt, disk, body, full, n,
                    if reached < full' then Ingested(more, reached, false) else r)
  {
    assert accepted <= accepted + pieces[0].bytes;
    ContentsCons(pieces);
    WritableReached(key, full, full', disk);
    WritableSplit(key, full, full', n, disk);
  }

  lemma EmptyStream(key: string, accepted: seq<byte>, closedAt: Option<nat>, cs: nat, disk: Disk)
    requires cs > 0 && |accepted| < TWO_TO_THE_64
    ensures Contents([]) == []
    ensures var r := Ingest(key, accepted, [], closedAt, cs, disk);
            && r.accepted == accepted
            && (r.ok <==> Writable(key, Quotient(|accepted|, cs), NumChunks(|accepted|, cs), disk))
            && (r.ok ==> r.written == NumChunks(|accepted|, cs))
  {
    var full := Quotient(|accepted|, cs);
    DivBounds(|accepted|, cs);
    IndexInRange(|accepted|, cs, full);
    IndexInRange(|accepted|, cs, full + 1);
    StartMonotone(|accepted|, cs, full);
    FullBelowCount(|accepted|, cs);
  }

  lemma WritableSplit(key: string, a: nat, b: nat, c: nat, disk: Disk)
    requires a <= b <= c
    ensures Writable(key, a, c, disk) <==> Writable(key, a, b, disk) && Writable(key, b, c, disk)
  {
  }

  lemma {:induction false} BelowFirstUnwritable(key: string, begin: nat, limit: nat, disk: Disk)
    requires begin <= limit <= TWO_TO_THE_64
    ensures forall i: nat :: begin <= i < FirstUnwritable(key, begin, limit, disk) ==> ChunkId(key, i) !in disk.unwritable
    decreases limit - begin
  {
    if begin < limit && ChunkId(key, begin) !in disk.unwritable {
      BelowFirstUnwritable(key, begin + 1, limit, disk);
    }
  }

  lemma WritableReached(key: string, a: nat, b: nat, disk: Disk)
    requires a <= b <= TWO_TO_THE_64
    ensures FirstUnwritable(key, a, b, disk) == b <==> Writable(key, a, b, disk)
  {
    var reached := FirstUnwritable(key, a, b, disk);
    BelowFirstUnwritable(key, a, b, disk);
    if reached == b {
      forall id: ChunkId | id in disk.unwritable && id.key == key
        ensures !(a <= id.idx < b)
      {
        assert id == ChunkId(key, id.idx);
      }
    } else {
      assert ChunkId(key, reached) in disk.unwritable;
    }
  }

  /** The same body gives the same chunk files however it is cut. */
  lemma CutsDoNotMatter(key: string, a: seq<Piece>, b: seq<Piece>, cs: nat, disk: Disk)
    requires cs > 0 && Contents(a) == Contents(b) && |Contents(a)| < TWO_TO_THE_64
    requires Unbroken(a) && Unbroken(b)
    ensures Ingest(key, [], a, None, cs, disk).ok == Ingest(key, [], b, None, cs, disk).ok
    ensures Ingest(key, [], a, None, cs, disk).ok ==>
              Ingest(key, [], a, None, cs, disk) == Ingest(key, [], b, None, cs, disk)
  {
    IngestOutcome(key, [], a, None, cs, disk);
    IngestOutcome(key, [], b, None, cs, disk);
  }

  // --- where it stops ---

  lemma {:induction false} FirstSkips(key: string, a: nat, b: nat, c: nat, disk: Disk)
    requires a <= b <= c <= TWO_TO_THE_64 && FirstUnwritable(key, a, b, disk) == b
    ensures FirstUnwritable(key, a, c, disk) == FirstUnwritable(key, b, c, disk)
    decreases b - a
  {
    if a < b {
      assert ChunkId(key, a) !in disk.unwritable by {
        BelowFirstUnwritable(key, a, b, disk);
      }
      FirstSkips(key, a + 1, b, c, disk);
    }
  }

  lemma {:induction false} FirstStays(key: string, a: nat, b: nat, c: nat, disk: Disk)
    requires a <= b <= c <= TWO_TO_THE_64 && FirstUnwritable(key, a, b, disk) < b
    ensures FirstUnwritable(key, a, c, disk) == FirstUnwritable(key, a, b, disk)
    decreases b - a
  {
    if ChunkId(key, a) !in disk.unwritable {
      FirstStays(key, a + 1, b, c, disk);
    }
  }

  /** How a failed splitting ends, `m` pieces into the stream. */
  ghost predicate StopsAt(key: string, accepted: seq<byte>, pieces: seq<Piece>, closedAt: Option<nat>, cs: nat, disk: Disk,
                          r: Ingested, m: nat)
    requires cs > 0 && |r.accepted| < TWO_TO_THE_64 && |accepted| < TWO_TO_THE_64
  {
    var full, reached := Quotient(|accepted|, cs), Quotient(|r.accepted|, cs);
    && m <= |pieces| && Unbroken(pieces[..m]) && (closedAt.Some? ==> m <= closedAt.value)
    && r.accepted == accepted + Contents(pieces[..m])
    && full <= reached && r.written == FirstUnwritable(key, full, reached, disk)
    && (|| r.written < reached
        || (m < |pieces| && (pieces[m].Broken? || closedAt == Some(m)))
        || (m == |pieces| && ChunkId(key, reached) in disk.unwritable))
  }

  /**
   * A splitting that fails has accepted every piece before the failure and written every full chunk of them up to the
   * first the disk refused; it fails for an error in the stream, a closed channel, or a refused chunk, full or last.
   */
  lemma {:induction false} IngestFails(key: string, accepted: seq<byte>, pieces: seq<Piece>, closedAt: Option<nat>, cs: nat,
                                       disk: Disk) returns (m: nat)
    requires cs > 0 && |accepted| + |Contents(pieces)| < TWO_TO_THE_64
    requires !Ingest(key, accepted, pieces, closedAt, cs, disk).ok
    ensures StopsAt(key, accepted, pieces, closedAt, cs, disk, Ingest(key, accepted, pieces, closedAt, cs, disk), m)
    decreases |pieces|
  {
    DivBounds(|accepted|, cs);
    if pieces == [] || pieces[0].Broken? || closedAt == Some(0) {
      m := 0;
      assert accepted + Contents(pieces[..0]) == accepted;
    } else {
      var more := accepted + pieces[0].bytes;
      var full, full' := Quotient(|accepted|, cs), Quotient(|more|, cs);
      ContentsCons(pieces);
      NumChunksMonotone(|accepted|, |more|, cs);
      DivBounds(|more|, cs);
      IngestUnroll(key, accepted, pieces, closedAt, cs, disk);
      if FirstUnwritable(key, full, full', disk) < full' {
        m := 1;
        OnePiece(pieces);
      } else {
        var k := IngestFails(key, more, pieces[1..], AfterOne(closedAt), cs, disk);
        m := k + 1;
        StopsLater(key, accepted, pieces, closedAt, cs, disk, Ingest(key, more, pieces[1..], AfterOne(closedAt), cs, disk), k);
      }
    }
  }

  lemma OnePiece(pieces: seq<Piece>)
    requires pieces != [] && pieces[0].Data?
    ensures Unbroken(pieces[..1]) && Contents(pieces[..1]) == pieces[0].bytes
  {
    assert pieces[..1][1..] == [];
    assert pieces[0].bytes + Contents([]) == pieces[0].bytes;
  }

  lemma MorePieces(pieces: seq<Piece>, k: nat)
    requires k < |pieces| && pieces[0].Data?
    ensures Contents(pieces[..k + 1]) == pieces[0].bytes + Contents(pieces[1..][..k])
    ensures Unbroken(pieces[..k + 1]) <==> Unbroken(pieces[1..][..k])
  {
    assert pieces[..k + 1][1..] == pieces[1..][..k];
    ContentsCons(pieces[..k + 1]);
  }

  lemma StopsLater(key: string, accepted: seq<byte>, pieces: seq<Piece>, closedAt: Option<nat>, cs: nat, disk: Disk,
                   r: Ingested, k: nat)
    requires cs > 0 && pieces != [] && pieces[0].Data? && closedAt != Some(0)
    requires |r.accepted| < TWO_TO_THE_64 && |accepted + pieces[0].bytes| < TWO_TO_THE_64
    requires var full, full' := Quotient(|accepted|, cs), Quotient(|accepted + pieces[0].bytes|, cs);
             full <= full' < TWO_TO_THE_64 && FirstUnwritable(key, full, full', disk) == full'
    requires StopsAt(key, accepted + pieces[0].bytes, pieces[1..], AfterOne(closedAt), cs, disk, r, k)
    ensures StopsAt(key, accepted, pieces, closedAt, cs, disk, r, k + 1)
  {
    MorePieces(pieces, k);
    Associative(accepted, pieces[0].bytes, Contents(pieces[1..][..k]));
    DivBounds(|r.accepted|, cs);
    FirstSkips(key, Quotient(|accepted|, cs), Quotient(|accepted + pieces[0].bytes|, cs), Quotient(|r.accepted|, cs), disk);
  }
}

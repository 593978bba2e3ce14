/** Block arithmetic: how an object's bytes are cut into fixed-size chunks and how a byte range maps onto them. */
module Blocks {
  import opened Basics

  /** Division by the chunk size, in a form that unfolds step by step. */
  function Quotient(a: nat, cs: nat): (q: nat)
    requires cs > 0
    ensures q <= a
  {
    if a < cs then 0 else Quotient(a - cs, cs) + 1
  }

  /** Chunk count of an object, as cleanup and copy recompute it from the recorded length. */
  function NumChunks(len: nat, cs: nat): (n: nat)
    requires cs > 0
    ensures n <= len
  {
    if len > 0 then Quotient(len - 1, cs) + 1 else 0
  }

  /** First byte of chunk `i`, clipped to the object. */
  function Start(len: nat, cs: nat, i: nat): (o: nat)
    ensures o <= len
  {
    Min(i * cs, len)
  }

  /** The bytes of chunk `i`. */
  function Block(content: seq<byte>, cs: nat, i: nat): seq<byte> {
    StartMonotone(|content|, cs, i);
    content[Start(|content|, cs, i)..Start(|content|, cs, i + 1)]
  }

  /** Length of chunk `i`, knowable from the object's length alone. */
  function BlockLen(len: nat, cs: nat, i: nat): nat {
    StartMonotone(len, cs, i);
    Start(len, cs, i + 1) - Start(len, cs, i)
  }

  lemma StartMonotone(len: nat, cs: nat, i: nat)
    ensures (i + 1) * cs == i * cs + cs
    ensures Start(len, cs, i) <= Start(len, cs, i + 1)
  {
  }

  lemma {:induction false} DivBounds(a: nat, cs: nat)
    requires cs > 0
    ensures Quotient(a, cs) * cs <= a < Quotient(a, cs) * cs + cs
  {
    if a >= cs {
      DivBounds(a - cs, cs);
      StartMonotone(a, cs, Quotient(a - cs, cs));
    }
  }

  lemma MulMonotone(i: nat, j: nat, cs: nat)
    requires i <= j
    ensures i * cs <= j * cs
  {
  }

  /** Multiples of the chunk size locate a quotient. */
  lemma DivUnique(a: nat, cs: nat, q: nat)
    requires cs > 0
    ensures q <= Quotient(a, cs) <==> q * cs <= a
  {
    DivBounds(a, cs);
    if q <= Quotient(a, cs) {
      MulMonotone(q, Quotient(a, cs), cs);
    } else {
      MulMonotone(Quotient(a, cs) + 1, q, cs);
    }
  }

  /** `Quotient` is the machine's division. */
  lemma QuotientIsDivision(a: nat, cs: nat)
    requires cs > 0
    ensures Quotient(a, cs) == a / cs
  {
    var q, d := Quotient(a, cs), a / cs;
    assert a == d * cs + a % cs;
    DivBounds(a, cs);
    StartMonotone(0, cs, q);
    StartMonotone(0, cs, d);
    if q < d {
      MulMonotone(q + 1, d, cs);
    } else if d < q {
      MulMonotone(d + 1, q, cs);
    }
  }

  /** A chunk index is below the count exactly when the chunk starts inside the object. */
  lemma IndexInRange(len: nat, cs: nat, i: nat)
    requires cs > 0
    ensures i < NumChunks(len, cs) <==> i * cs < len
  {
    if len > 0 {
      DivUnique(len - 1, cs, i);
    }
  }

  /** All chunks but the last are full, and the last one is not empty. */
  lemma BlockSizes(content: seq<byte>, cs: nat, i: nat)
    requires cs > 0
    ensures |Block(content, cs, i)| == BlockLen(|content|, cs, i)
    ensures i + 1 < NumChunks(|content|, cs) ==> BlockLen(|content|, cs, i) == cs
    ensures i + 1 == NumChunks(|content|, cs) ==> 1 <= BlockLen(|content|, cs, i) <= cs
    ensures i >= NumChunks(|content|, cs) ==> BlockLen(|content|, cs, i) == 0
  {
    StartMonotone(|content|, cs, i);
    IndexInRange(|content|, cs, i);
    IndexInRange(|content|, cs, i + 1);
  }

  /** The first `n` chunks, end to end. */
  function FirstBlocks(content: seq<byte>, cs: nat, n: nat): seq<byte> {
    if n == 0 then [] else FirstBlocks(content, cs, n - 1) + Block(content, cs, n - 1)
  }

  lemma {:induction false} FirstBlocksIsPrefix(content: seq<byte>, cs: nat, n: nat)
    ensures FirstBlocks(content, cs, n) == content[..Start(|content|, cs, n)]
  {
    if n > 0 {
      FirstBlocksIsPrefix(content, cs, n - 1);
      StartMonotone(|content|, cs, n - 1);
    }
  }

  /** The chunks partition the object: nothing is lost, repeated or reordered. */
  lemma BlocksPartition(content: seq<byte>, cs: nat)
    requires cs > 0
    ensures FirstBlocks(content, cs, NumChunks(|content|, cs)) == content
  {
    var n := NumChunks(|content|, cs);
    IndexInRange(|content|, cs, n);
    FirstBlocksIsPrefix(content, cs, n);
  }

  /** A full chunk does not change when more bytes arrive. */
  lemma BlockStable(a: seq<byte>, b: seq<byte>, cs: nat, i: nat)
    requires (i + 1) * cs <= |a|
    ensures Block(a + b, cs, i) == Block(a, cs, i)
  {
    StartMonotone(|a|, cs, i);
  }

  /** Where the requested range [start, end) meets chunk `idx`: offset inside the chunk and byte count. */
  function ReadStart(cs: nat, start: nat, idx: nat): nat {
    Max(start, idx * cs)
  }

  function ReadEnd(len: nat, cs: nat, end: nat, idx: nat): int {
    Min(end, Min((idx + 1) * cs, len))
  }

  /** Inside the range, the read window of a chunk is a non-empty part of that chunk. */
  lemma WindowInsideBlock(len: nat, cs: nat, start: nat, end: nat, idx: nat)
    requires cs > 0 && start < end <= len
    requires Quotient(start, cs) <= idx <= Quotient(end - 1, cs)
    ensures idx < NumChunks(len, cs)
    ensures idx * cs <= ReadStart(cs, start, idx) < ReadEnd(len, cs, end, idx)
    ensures ReadEnd(len, cs, end, idx) - idx * cs <= BlockLen(len, cs, idx)
    ensures idx * cs <= len && Start(len, cs, idx) == idx * cs
  {
    DivUnique(start, cs, idx + 1);
    DivUnique(end - 1, cs, idx);
    IndexInRange(len, cs, idx);
    StartMonotone(len, cs, idx);
  }

  /** A window of a chunk is the same window of the object. */
  lemma WindowOfBlock(content: seq<byte>, cs: nat, start: nat, end: nat, idx: nat)
    requires cs > 0 && start < end <= |content|
    requires Quotient(start, cs) <= idx <= Quotient(end - 1, cs)
    ensures var lo, hi := ReadStart(cs, start, idx), ReadEnd(|content|, cs, end, idx);
            && idx * cs <= lo <= hi <= |content|
            && hi - idx * cs <= |Block(content, cs, idx)|
            && Block(content, cs, idx)[lo - idx * cs..hi - idx * cs] == content[lo..hi]
  {
    var lo, hi := ReadStart(cs, start, idx), ReadEnd(|content|, cs, end, idx);
    var base := idx * cs;
    WindowInsideBlock(|content|, cs, start, end, idx);
    var stop := Start(|content|, cs, idx + 1);
    assert Block(content, cs, idx) == content[base..stop];
    SubSlice(content, base, stop, lo, hi);
  }

  lemma SubSlice(s: seq<byte>, base: nat, stop: nat, lo: nat, hi: nat)
    requires base <= lo <= hi <= stop <= |s|
    ensures s[base..stop][lo - base..hi - base] == s[lo..hi]
  {
    var window := s[base..stop][lo - base..hi - base];
    assert forall k | 0 <= k < hi - lo :: window[k] == s[base..stop][lo - base + k] == s[lo + k];
  }

  /** Consecutive windows meet without gap or overlap. */
  lemma WindowsMeet(len: nat, cs: nat, start: nat, end: nat, idx: nat)
    requires cs > 0 && start < end <= len
    requires Quotient(start, cs) <= idx <= Quotient(end - 1, cs)
    ensures idx == Quotient(start, cs) ==> ReadStart(cs, start, idx) == start
    ensures idx == Quotient(end - 1, cs) ==> ReadEnd(len, cs, end, idx) == end
    ensures idx < Quotient(end - 1, cs) ==> ReadEnd(len, cs, end, idx) == ReadStart(cs, start, idx + 1)
  {
    DivBounds(start, cs);
    DivBounds(end - 1, cs);
    DivUnique(start, cs, idx + 1);
    DivUnique(end - 1, cs, idx + 1);
  }

  function ChunkEnd(cs: nat, idx: nat): nat {
    (idx + 1) * cs
  }

  /**
   * Largest value computed while reading: `(idx + 1) * chunk_size` for the last chunk. It fits in 64 bits for
   * every chunk of the range exactly when it does for the last one; `len - 1 + cs < 2^64` is enough.
   */
  lemma NoOverflow(len: nat, cs: nat, start: nat, end: nat)
    requires cs > 0 && start < end <= len
    ensures (forall idx: nat | Quotient(start, cs) <= idx <= Quotient(end - 1, cs) :: ChunkEnd(cs, idx) < TWO_TO_THE_64)
            <==> ChunkEnd(cs, Quotient(end - 1, cs)) < TWO_TO_THE_64
    ensures len - 1 + cs < TWO_TO_THE_64 ==> ChunkEnd(cs, Quotient(end - 1, cs)) < TWO_TO_THE_64
  {
    var last := Quotient(end - 1, cs);
    DivBounds(end - 1, cs);
    DivUnique(end - 1, cs, Quotient(start, cs));
    DivBounds(start, cs);
    assert Quotient(start, cs) <= last;
    assert ChunkEnd(cs, last) == last * cs + cs;
    if ChunkEnd(cs, last) < TWO_TO_THE_64 {
      forall idx: nat | Quotient(start, cs) <= idx <= last
        ensures ChunkEnd(cs, idx) < TWO_TO_THE_64
      {
        MulMonotone(idx + 1, last + 1, cs);
      }
    }
  }

  /** A one-byte object is one chunk. */
  lemma OneByteLayout(cs: nat)
    requires cs > 0
    ensures NumChunks(1, cs) == 1
    ensures Start(1, cs, 0) == 0 && Start(1, cs, 1) == 1 && BlockLen(1, cs, 0) == 1
  {
    assert 0 * cs == 0 && 1 * cs == cs;
  }

  lemma OneByteBlock(content: seq<byte>, cs: nat)
    requires cs > 0 && |content| == 1
    ensures Block(content, cs, 0) == content
  {
    OneByteLayout(cs);
    var len := |content|;
    assert Start(len, cs, 0) == 0 && Start(len, cs, 0 + 1) == 1;
    assert Block(content, cs, 0) == content[0..1];
  }
}

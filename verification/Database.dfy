/** The metadata database: an object table and a chunk table whose string keys are printed chunk ids. */
module Database {
  import opened Basics
  import opened ChunkKey
  import opened CacheModel
  import opened Sorting
  import opened Journal

  type Rows = seq<(string, ChunkMeta)>

  /** The keys of the first `n` rows increase strictly. */
  ghost predicate Ascending(rows: Rows, n: nat)
    requires n <= |rows|
  {
    n <= 1 || (Ascending(rows, n - 1) && StringLt(rows[n - 2].0, rows[n - 1].0))
  }

  /** The rows of a table in key order, each once. */
  ghost predicate Lists(table: map<string, ChunkMeta>, rows: Rows) {
    && (forall i :: 0 <= i < |rows| ==> rows[i].0 in table && rows[i].1 == table[rows[i].0])
    && (forall k :: k in table ==> (k, table[k]) in rows)
    && Ascending(rows, |rows|)
  }

  lemma {:induction false} AscendingPairs(rows: Rows, n: nat, i: nat, j: nat)
    requires i < j < n <= |rows| && Ascending(rows, n)
    ensures StringLt(rows[i].0, rows[j].0)
  {
    if j < n - 1 {
      AscendingPairs(rows, n - 1, i, j);
    } else if i < n - 2 {
      AscendingPairs(rows, n - 1, i, n - 2);
      StringLtTransitive(rows[i].0, rows[n - 2].0, rows[n - 1].0);
    }
  }

  lemma {:induction false} AscendingPrefix(rows: Rows, more: Rows, n: nat)
    requires n <= |rows| && rows <= more
    ensures Ascending(rows, n) <==> Ascending(more, n)
  {
    if n > 1 {
      AscendingPrefix(rows, more, n - 1);
    }
  }

  /** The string-keyed table holds exactly these chunks. */
  ghost predicate Represents(table: map<string, ChunkMeta>, entries: map<ChunkId, ChunkMeta>) {
    && (forall id {:trigger Encode(id)} ::
          && (id in entries <==> Encode(id) in table)
          && (id in entries ==> table[Encode(id)] == entries[id]))
    && (forall k {:trigger Decode(k)} :: k in table ==> Decode(k).Some? && Encode(Decode(k).value) == k)
  }

  lemma EncodeDistinct(a: ChunkId, b: ChunkId)
    ensures Encode(a) == Encode(b) <==> a == b
  {
    if Encode(a) == Encode(b) {
      EncodeInjective(a, b);
    }
  }

  lemma RepresentsPut(table: map<string, ChunkMeta>, entries: map<ChunkId, ChunkMeta>, id: ChunkId, meta: ChunkMeta)
    requires Represents(table, entries)
    ensures Represents(table[Encode(id) := meta], entries[id := meta])
  {
    DecodeEncode(id);
    forall other: ChunkId
      ensures Encode(other) == Encode(id) <==> other == id
    {
      EncodeDistinct(id, other);
    }
  }

  lemma RepresentsDelete(table: map<string, ChunkMeta>, entries: map<ChunkId, ChunkMeta>, id: ChunkId)
    requires Represents(table, entries)
    ensures Represents(table - {Encode(id)}, entries - {id})
  {
    DecodeEncode(id);
    forall other: ChunkId
      ensures Encode(other) == Encode(id) <==> other == id
    {
      EncodeDistinct(id, other);
    }
  }

  class MetadataDb {
    const journal: Journal
    var objects: map<string, ObjectMeta>
    var chunks: map<string, ChunkMeta>
    ghost var entries: map<ChunkId, ChunkMeta>

    ghost predicate Valid()
      reads this
    {
      Represents(chunks, entries)
    }

    constructor (journal: Journal)
      ensures Valid() && objects == map[] && entries == map[] && this.journal == journal
    {
      this.journal, objects, chunks, entries := journal, map[], map[], map[];
    }

    method GetObject(key: string) returns (record: Option<ObjectMeta>)
      ensures record == if key in objects then Some(objects[key]) else None
    {
      record := if key in objects then Some(objects[key]) else None;
    }

    method PutObject(key: string, record: ObjectMeta)
      requires Valid()
      modifies this`objects, journal
      ensures Valid() && objects == old(objects)[key := record]
      ensures journal.log == old(journal.log) + [CacheModel.PutObject(key, record)]
    {
      objects := objects[key := record];
      journal.Note([CacheModel.PutObject(key, record)]);
    }

    method DeleteObject(key: string)
      requires Valid()
      modifies this`objects, journal
      ensures Valid() && objects == old(objects) - {key}
      ensures journal.log == old(journal.log) + [CacheModel.DeleteObject(key)]
    {
      objects := objects - {key};
      journal.Note([CacheModel.DeleteObject(key)]);
    }

    method GetChunk(id: ChunkId) returns (chunk: Option<ChunkMeta>)
      requires Valid()
      ensures chunk == if id in entries then Some(entries[id]) else None
    {
      var key := Encode(id);
      chunk := if key in chunks then Some(chunks[key]) else None;
    }

    method PutChunk(id: ChunkId, chunk: ChunkMeta)
      requires Valid()
      modifies this`chunks, this`entries, journal
      ensures Valid() && entries == old(entries)[id := chunk]
      ensures journal.log == old(journal.log) + [PutEntry(id, chunk)]
    {
      RepresentsPut(chunks, entries, id, chunk);
      chunks := chunks[Encode(id) := chunk];
      entries := entries[id := chunk];
      journal.Note([PutEntry(id, chunk)]);
    }

    method DeleteChunk(id: ChunkId)
      requires Valid()
      modifies this`chunks, this`entries, journal
      ensures Valid() && entries == old(entries) - {id} && chunks == old(chunks) - {Encode(id)}
      ensures journal.log == old(journal.log) + [DeleteEntry(id)]
    {
      RepresentsDelete(chunks, entries, id);
      chunks := chunks - {Encode(id)};
      entries := entries - {id};
      journal.Note([DeleteEntry(id)]);
    }

    /** A scan of the chunk table in key order. */
    method ListAllChunks() returns (rows: Rows)
      ensures Lists(chunks, rows)
    {
      rows := [];
      var left := chunks.Keys;
      while left != {}
        invariant left <= chunks.Keys
        invariant forall i :: 0 <= i < |rows| ==> rows[i].0 in chunks && rows[i].1 == chunks[rows[i].0]
        invariant forall k :: k in chunks && k !in left ==> (k, chunks[k]) in rows
        invariant rows != [] ==> forall k :: k in left ==> StringLt(rows[|rows| - 1].0, k)
        invariant Ascending(rows, |rows|)
        decreases |left|
      {
        LeastExists(left);
        ghost var least :| Least(least, left);
        var k :| k in left && forall other :: other in left ==> StringLe(k, other);
        AscendingPrefix(rows, rows + [(k, chunks[k])], |rows|);
        rows := rows + [(k, chunks[k])];
        left := left - {k};
      }
    }
  }
}

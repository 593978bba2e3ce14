/** The chunk table's key codec: printed by the metadata database, decoded by the evictor. */
module ChunkKey {
  import opened Basics
  import Text
  import Decimal

  datatype ChunkId = ChunkId(key: string, idx: u64)

  /** The table key of a chunk. */
  function Encode(id: ChunkId): string {
    id.key + [':'] + Decimal.Print(id.idx)
  }

  /** The evictor's decoding: cut at the last colon, parse the rest as a 64-bit integer. */
  function Decode(s: string): Option<ChunkId> {
    match Text.RFind(s, ':')
    case None => None
    case Some(pos) =>
      match Decimal.ParseU64(s[pos + 1..])
      case None => None
      case Some(idx) => Some(ChunkId(s[..pos], idx))
  }

  lemma DecodeEncode(id: ChunkId)
    ensures Decode(Encode(id)) == Some(id)
  {
    var digits := Decimal.Print(id.idx);
    Text.RFindAppend(id.key, ':', digits);
    Decimal.ParsePrint(id.idx);
    assert Encode(id)[|id.key| + 1..] == digits;
    assert Encode(id)[..|id.key|] == id.key;
  }

  /** Distinct chunks never share a table entry. */
  lemma EncodeInjective(a: ChunkId, b: ChunkId)
    requires Encode(a) == Encode(b)
    ensures a == b
  {
    DecodeEncode(a);
    DecodeEncode(b);
  }

  /** The database key of an object. */
  function DbKey(bucket: string, key: string): string {
    bucket + ['/'] + key
  }

  /** Objects share a database key exactly when they are the same object, for buckets without a slash. */
  lemma DbKeyInjective(bucket: string, key: string, bucket': string, key': string)
    requires '/' !in bucket && '/' !in bucket'
    ensures DbKey(bucket, key) == DbKey(bucket', key') <==> bucket == bucket' && key == key'
  {
    Text.SplitHead(bucket, '/', key);
    Text.SplitHead(bucket', '/', key');
  }
}

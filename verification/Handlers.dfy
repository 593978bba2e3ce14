/** The request handlers, tied to the steps and replies of a run. */
module Handlers {
  import opened Basics
  import opened CacheModel
  import opened Operations
  import opened ByteRange
  import opened PutOperation
  import opened Runs
  import opened Replies
  import opened Coordinator
  import opened Journal
  import ChunkKey
  import CopySource
  import Decimal
  import PercentCodec
  import Refinement
  import Text

  /** A request that nothing interrupts. */
  function Uninterrupted(op: Op, disk: Disk, clock: Clock): Event {
    Event(op, disk, clock, None)
  }

  lemma WholeLog(s: State, cs: nat, op: Op, disk: Disk, clock: Clock)
    requires cs > 0
    ensures var e := Uninterrupted(op, disk, clock);
            Step(s, cs, e) == Replay(s, LogOf(s, cs, e))
  {
  }

  /** A header value that is visible text. */
  function VisibleText(header: Option<string>): Option<string> {
    if header.Some? && Text.Visible(header.value) then header else None
  }

  /** The cache status: looked up after the answer has been prepared. */
  method CacheStatus(cache: CacheCoordinator, key: string) returns (hot: bool)
    requires cache.Valid()
    ensures hot == IsHot(cache.Now(), key)
  {
    var local := cache.db.GetObject(key);
    hot := false;
    if local.Some? {
      if local.value.contentLength == 0 {
        hot := true;
      } else {
        var chunk := cache.db.GetChunk(ChunkKey.ChunkId(key, 0));
        hot := chunk.Some? && chunk.value.status == Complete;
      }
    }
  }

  /** HEAD: the headers and the writes are those of the run model. */
  method HeadObjectHandler(cache: CacheCoordinator, key: string, disk: Disk, clock: Clock)
    returns (headers: Option<ResponseHeaders>)
    requires cache.Valid()
    modifies cache.db, cache.storage, cache.journal
    ensures cache.Valid()
    ensures var s, e := old(cache.Now()), Uninterrupted(HeadReq(key), disk, clock);
            && headers == HeadersOf(s, cache.chunkSize, e)
            && cache.Now() == Step(s, cache.chunkSize, e)
            && cache.journal.log == old(cache.journal.log) + LogOf(s, cache.chunkSize, e)
  {
    WholeLog(cache.Now(), cache.chunkSize, HeadReq(key), disk, clock);
    var meta := cache.GetObjectMetadata(key, disk);
    if meta.None? {
      return None;
    }
    var hot := CacheStatus(cache, key);
    headers := Some(ResponseHeaders(meta.value.contentLength, IfValid(meta.value.contentType), IfValid(meta.value.etag),
                                    meta.value.lastModified, None, hot));
  }

  /** The first HEAD of a GET leaves a record that its second HEAD confirms. */
  lemma GetRefreshes(s: State, key: string, cs: nat, disk: Disk)
    requires cs > 0 && key in s.upstream
    ensures var t := Replay(s, RefreshLog(s, key, cs, disk));
            t.upstream == s.upstream && Replay(t, RefreshLog(t, key, cs, disk)) == t
  {
    RefreshEffect(s, key, cs, disk);
    DropEffect(s, key, cs, disk);
    RefreshIdempotent(Replay(s, RefreshLog(s, key, cs, disk)), key, cs, disk);
  }

  /** GET: the reply and its headers are the ones the run model gives, and so are the writes. */
  method GetObjectHandler(cache: CacheCoordinator, key: string, rangeHeader: Option<string>, disk: Disk, clock: Clock)
    returns (reply: Reply, headers: Option<ResponseHeaders>)
    requires cache.Valid()
    modifies cache.db, cache.storage, cache.journal
    ensures cache.Valid()
    ensures var s, e := old(cache.Now()), Uninterrupted(GetReq(key, VisibleText(rangeHeader)), disk, clock);
            && reply == ReplyOf(s, cache.chunkSize, e)
            && headers == HeadersOf(s, cache.chunkSize, e)
            && cache.Now() == Step(s, cache.chunkSize, e)
            && cache.journal.log == old(cache.journal.log) + LogOf(s, cache.chunkSize, e)
  {
    ghost var s, cs := cache.Now(), cache.chunkSize;
    var range := VisibleText(rangeHeader);
    WholeLog(s, cs, GetReq(key, range), disk, clock);
    var meta := cache.GetObjectMetadata(key, disk);
    if meta.None? {
      return NotFound, None;
    }
    var size := meta.value.contentLength;
    var start, end, isPartial := SelectWindow(range, size);
    var pieces := ReadWindow(cache, key, range, start, end, disk, clock, s, old(cache.journal.log));
    GetAnswer(s, cs, Uninterrupted(GetReq(key, range), disk, clock), key, range, start, end, isPartial);
    GetDescribed(s, cs, Uninterrupted(GetReq(key, range), disk, clock), key, range, start, end, isPartial);
    reply := Found(isPartial, SaturatingSub(end, start), pieces);
    headers := AnswerHeaders(cache, key, meta.value, start, end, isPartial);
  }

  method SelectWindow(range: Option<string>, size: u64) returns (start: nat, end: nat, isPartial: bool)
    ensures (start, end, isPartial) == Window(range, size)
  {
    var window := match range case None => None case Some(header) => ParseRange(header, size);
    start, end, isPartial := 0, size, false;
    if window.Some? {
      start, end, isPartial := window.value.0, window.value.1, true;
    }
  }

  /** The second half of a GET: its own HEAD, and the stream. */
  method ReadWindow(cache: CacheCoordinator, key: string, range: Option<string>, start: u64, end: u64, disk: Disk, clock: Clock,
                    ghost s: State, ghost before: Log) returns (pieces: seq<Piece>)
    requires cache.Valid() && key in s.upstream
    requires var w := Window(range, |s.upstream[key].content|); w.0 == start && w.1 == end
    requires cache.Now() == Replay(s, RefreshLog(s, key, cache.chunkSize, disk))
    requires cache.journal.log == before + RefreshLog(s, key, cache.chunkSize, disk)
    modifies cache.db, cache.storage, cache.journal
    ensures cache.Valid()
    ensures var e := Uninterrupted(GetReq(key, range), disk, clock);
            && pieces == StreamOf(s, key, range, cache.chunkSize, disk)
            && cache.Now() == Replay(s, LogOf(s, cache.chunkSize, e))
            && cache.journal.log == before + LogOf(s, cache.chunkSize, e)
  {
    ghost var cs := cache.chunkSize;
    ghost var refresh := RefreshLog(s, key, cs, disk);
    GetRefreshes(s, key, cs, disk);
    ghost var rest := ReadLog(cache.Now(), key, cs, start, end, disk, clock);
    ReplayConcat(s, refresh, rest);
    Associative(before, refresh, rest);
    var stream := cache.ReadRange(key, start, end, disk, clock);
    pieces := stream.value;
  }

  method AnswerHeaders(cache: CacheCoordinator, key: string, meta: ObjectMeta, start: nat, end: nat, isPartial: bool)
    returns (headers: Option<ResponseHeaders>)
    requires cache.Valid()
    ensures headers == Some(DescribedBy(meta, SaturatingSub(end, start),
                                        if isPartial then Some(ContentRange(start, end, meta.contentLength)) else None,
                                        IsHot(cache.Now(), key)))
  {
    var contentRange := None;
    if isPartial {
      contentRange := Some(ContentRange(start, end, meta.contentLength));
    }
    var hot := CacheStatus(cache, key);
    headers := Some(ResponseHeaders(SaturatingSub(end, start), IfValid(meta.contentType), IfValid(meta.etag),
                                    meta.lastModified, contentRange, hot));
  }

  /** The headers of a PUT that decide what it does. */
  datatype PutHeaders = PutHeaders(copySource: Option<string>, contentLength: Option<string>, contentType: Option<string>)

  /** The declared length: zero when the header is missing or no 64-bit number. */
  function Declared(header: Option<string>): u64 {
    match VisibleText(header)
    case None => 0
    case Some(text) => Decimal.ParseU64(text).GetOr(0)
  }

  /** The bucket and key a copy-source header names, if there is one and it names any. */
  function Source(header: Option<string>): Option<(string, string)> {
    match header
    case None => None
    case Some(text) => CopySource.Read(text)
  }

  /** What a PUT is: a copy if its copy-source header names a bucket and a key, else an upload of its body. */
  function PutOp(dest: string, headers: PutHeaders, pieces: Stream, closedAt: Option<nat>, upload: Upload,
                 created: Option<Object>): Op
  {
    match Source(headers.copySource)
    case Some(source) => CopyReq(ChunkKey.DbKey(source.0, source.1), dest, created)
    case None => PutReq(dest, pieces, closedAt, Declared(headers.contentLength), VisibleText(headers.contentType), upload)
  }

  /**
   * A PUT with a copy-source header is still taken as an upload of its body exactly when the header is not visible text
   * or, decoded, has no slash between a bucket and a key.
   */
  lemma CopyOrUpload(dest: string, header: string, headers: PutHeaders, pieces: Stream, closedAt: Option<nat>,
                     upload: Upload, created: Option<Object>)
    requires headers.copySource == Some(header)
    ensures PutOp(dest, headers, pieces, closedAt, upload, created).PutReq?
            <==> !Text.Visible(header) || '/' !in CopySource.TrimSlashes(PercentCodec.PercentDecode(header))
  {
  }

  /** An upload declares the length and the type its headers give; a missing or unreadable length counts as zero. */
  lemma UploadDeclared(dest: string, headers: PutHeaders, pieces: Stream, closedAt: Option<nat>, upload: Upload,
                       created: Option<Object>, n: u64)
    requires headers.copySource.None?
    ensures var op := PutOp(dest, headers, pieces, closedAt, upload, created);
            && op.PutReq? && op.key == dest && op.pieces == pieces && op.upload == upload
            && (headers.contentLength == Some(Decimal.Print(n)) ==> op.declared == n)
            && (headers.contentLength.None? ==> op.declared == 0)
            && (headers.contentLength.Some? && Decimal.ParseU64(headers.contentLength.value).None? ==> op.declared == 0)
            && (headers.contentType.Some? && Text.Visible(headers.contentType.value) ==> op.contentType == headers.contentType)
            && (headers.contentType.None? ==> op.contentType.None?)
  {
    Decimal.ParsePrint(n);
    DigitsVisible(n);
  }

  lemma DigitsVisible(n: nat)
    ensures Text.Visible(Decimal.Print(n))
  {
    forall c | c in Decimal.Print(n)
      ensures ' ' <= c <= '~'
    {
      assert Decimal.IsDigit(c);
    }
  }

  /** The copy source this proxy prints is understood as the object it names. */
  lemma PrintedSourceCopies(bucket: string, key: string, dest: string, headers: PutHeaders, pieces: Stream,
                            closedAt: Option<nat>, upload: Upload, created: Option<Object>)
    requires headers.copySource == Some(CopySource.Print(bucket, key))
    requires bucket != [] && Text.Visible(bucket) && '/' !in bucket && '%' !in bucket && '?' !in key
    ensures PutOp(dest, headers, pieces, closedAt, upload, created) == CopyReq(ChunkKey.DbKey(bucket, key), dest, created)
  {
    CopySource.RoundTrip(bucket, key);
  }

  /** The ETag a successful PUT answers with: the one upstream answered with, or none at all. */
  function PutAnswer(op: Op, cs: nat, disk: Disk): Option<string>
    requires cs > 0 && (op.PutReq? || op.CopyReq?)
  {
    if op.CopyReq? then (match op.created case None => None case Some(o) => Some(o.etag.GetOr("")))
    else if AsPut(op, cs, disk).Succeeds() then Some(op.upload.stored.etag.GetOr(""))
    else None
  }

  /** A PUT or COPY that ends well answers with the ETag of the object upstream then stores; one that fails with none. */
  lemma AnswerIsUpstreams(s: State, cs: nat, e: Event)
    requires cs > 0 && (e.op.PutReq? || e.op.CopyReq?) && e.crashedAfter.None?
    ensures var key := if e.op.PutReq? then e.op.key else e.op.dest;
            var answer, t := PutAnswer(e.op, cs, e.disk), Step(s, cs, e);
            && (answer.Some? ==> key in t.upstream && answer.value == t.upstream[key].etag.GetOr(""))
            && (e.op.CopyReq? && e.op.created.None? ==> answer.None?)
            && (e.op.PutReq? && e.op.upload.Rejected? ==> answer.None?)
  {
    Refinement.UpstreamStep(s, cs, e);
  }

  /** PUT: a copy or an upload, as its headers say; the answer and the writes are those of that operation. */
  method PutObjectHandler(cache: CacheCoordinator, bucket: string, key: string, headers: PutHeaders, pieces: Stream,
                          closedAt: Option<nat>, upload: Upload, created: Option<Object>, disk: Disk, clock: Clock)
    returns (etag: Option<string>)
    requires cache.Valid()
    modifies cache.db, cache.storage, cache.proxy, cache.journal
    ensures cache.Valid()
    ensures var op := PutOp(ChunkKey.DbKey(bucket, key), headers, pieces, closedAt, upload, created);
            && cache.Now() == Step(old(cache.Now()), cache.chunkSize, Uninterrupted(op, disk, clock))
            && cache.journal.log
               == old(cache.journal.log) + LogOf(old(cache.Now()), cache.chunkSize, Uninterrupted(op, disk, clock))
            && etag == PutAnswer(op, cache.chunkSize, disk)
  {
    var dest := ChunkKey.DbKey(bucket, key);
    if headers.copySource.Some? && Text.Visible(headers.copySource.value) {
      var decoded := PercentCodec.DecodePercent(headers.copySource.value);
      var parts := Text.SplitOnce(CopySource.TrimSlashes(decoded), '/');
      if |parts| == 2 {
        var srcKey := parts[1][..Text.IndexOf(parts[1], '?')];
        etag := CopyUpstreamThenCache(cache, ChunkKey.DbKey(parts[0], srcKey), dest, created, disk, clock);
        return;
      }
    }
    etag := UploadAndCache(cache, dest, pieces, closedAt, Declared(headers.contentLength),
                         VisibleText(headers.contentType), upload, disk, clock);
  }

  method UploadAndCache(cache: CacheCoordinator, key: string, pieces: Stream, closedAt: Option<nat>, declared: u64,
                        contentType: Option<string>, upload: Upload, disk: Disk, clock: Clock)
    returns (etag: Option<string>)
    requires cache.Valid()
    modifies cache.db, cache.storage, cache.proxy, cache.journal
    ensures cache.Valid()
    ensures var op := PutReq(key, pieces, closedAt, declared, contentType, upload);
            && cache.Now() == Step(old(cache.Now()), cache.chunkSize, Uninterrupted(op, disk, clock))
            && cache.journal.log
               == old(cache.journal.log) + LogOf(old(cache.Now()), cache.chunkSize, Uninterrupted(op, disk, clock))
            && etag == PutAnswer(op, cache.chunkSize, disk)
  {
    WholeLog(cache.Now(), cache.chunkSize, PutReq(key, pieces, closedAt, declared, contentType, upload), disk, clock);
    etag := cache.WriteAndCacheObject(key, pieces, closedAt, declared, contentType, upload, disk, clock);
  }

  /** COPY: upstream first, and only then the cache. */
  method CopyUpstreamThenCache(cache: CacheCoordinator, src: string, dest: string, created: Option<Object>, disk: Disk,
                               clock: Clock)
    returns (etag: Option<string>)
    requires cache.Valid()
    modifies cache.db, cache.storage, cache.proxy, cache.journal
    ensures cache.Valid()
    ensures var e := Uninterrupted(CopyReq(src, dest, created), disk, clock);
            && etag == PutAnswer(e.op, cache.chunkSize, disk)
            && cache.Now() == Step(old(cache.Now()), cache.chunkSize, e)
            && cache.journal.log == old(cache.journal.log) + LogOf(old(cache.Now()), cache.chunkSize, e)
  {
    ghost var s, cs := cache.Now(), cache.chunkSize;
    WholeLog(s, cs, CopyReq(src, dest, created), disk, clock);
    etag := cache.proxy.CopyObject(dest, created);
    if etag.Some? {
      ghost var log := CopyLog(cache.Now(), src, dest, cs);
      AcceptedCopyEffect(s, src, dest, created.value, cs);
      Associative(old(cache.journal.log), [Commit(dest, created.value)], log);
      cache.CopyCacheObject(src, dest);
    }
  }

  /** A DELETE that upstream has accepted, end to end. */
  lemma DeleteWhole(s: State, u: State, key: string, cs: nat, disk: Disk, clock: Clock, before: Log)
    requires cs > 0 && u == Apply(s, Remove(key))
    ensures var e := Uninterrupted(DeleteReq(key, true), disk, clock);
            && Step(s, cs, e) == Replay(u, DropLog(u, key, cs, disk))
            && before + LogOf(s, cs, e) == before + [Remove(key)] + DropLog(u, key, cs, disk)
  {
    AcceptedDeleteEffect(s, key, cs, disk);
    Associative(before, [Remove(key)], DropLog(u, key, cs, disk));
  }

  /** DELETE: upstream first, and only then the cache. */
  method DeleteObjectHandler(cache: CacheCoordinator, key: string, accepted: bool, disk: Disk, clock: Clock) returns (ok: bool)
    requires cache.Valid()
    modifies cache.db, cache.storage, cache.proxy, cache.journal
    ensures cache.Valid()
    ensures ok == accepted
    ensures var e := Uninterrupted(DeleteReq(key, accepted), disk, clock);
            && cache.Now() == Step(old(cache.Now()), cache.chunkSize, e)
            && cache.journal.log == old(cache.journal.log) + LogOf(old(cache.Now()), cache.chunkSize, e)
  {
    ghost var s, cs := cache.Now(), cache.chunkSize;
    WholeLog(s, cs, DeleteReq(key, accepted), disk, clock);
    ok := cache.proxy.DeleteObject(key, accepted);
    if ok {
      ghost var u := cache.Now();
      DeleteWhole(s, u, key, cs, disk, clock, old(cache.journal.log));
      cache.DropCacheForObject(key, disk);
    }
  }
}

/**
 * What a client gets, said without the proxy's own window arithmetic: the bytes at the positions its Range header
 * selects, in order, and their number; or the whole object; or an empty partial answer.
 */
module Replies {
  import opened Basics
  import opened ChunkKey
  import opened CacheModel
  import opened Operations
  import opened Coherence
  import opened ByteRange
  import opened Runs
  import opened Refinement
  import Decimal
  import Text

  /** The bytes at the selected positions below `n`, in order. */
  function SelectedBelow(spec: Spec, content: seq<byte>, n: nat): seq<byte>
    requires n <= |content|
  {
    if n == 0 then []
    else
      SelectedBelow(spec, content, n - 1) + (if spec.Selects(|content|, n - 1) then [content[n - 1]] else [])
  }

  function Selected(spec: Spec, content: seq<byte>): seq<byte> {
    SelectedBelow(spec, content, |content|)
  }

  /** A window that holds exactly the selected positions cuts out the selected bytes. */
  lemma {:induction false} SelectedIsWindow(spec: Spec, content: seq<byte>, lo: nat, hi: nat, n: nat)
    requires lo <= hi <= |content| && n <= |content|
    requires forall i: nat :: spec.Selects(|content|, i) <==> lo <= i < hi
    ensures SelectedBelow(spec, content, n) == content[Min(lo, n)..Min(hi, n)]
  {
    if n > 0 {
      SelectedIsWindow(spec, content, lo, hi, n - 1);
    }
  }

  /** An uninterrupted GET. */
  predicate IsGet(e: Event, key: string, range: Option<string>) {
    e.op == GetReq(key, range) && e.crashedAfter.None?
  }

  /** The stream carries `bytes`, or breaks after a prefix of them; it breaks only if a registered file is missing. */
  ghost predicate Carries(s: State, pieces: seq<Piece>, bytes: seq<byte>) {
    && Contents(pieces) <= bytes
    && (Unbroken(pieces) ==> Contents(pieces) == bytes)
    && (Backed(s) ==> Unbroken(pieces))
  }

  /** The reply is partial or not, announces the number of `bytes`, and carries them. */
  ghost predicate Delivers(s: State, reply: Reply, isPartial: bool, bytes: seq<byte>) {
    && reply.Found? && reply.isPartial == isPartial && reply.contentLength == |bytes|
    && Carries(s, reply.pieces, bytes)
  }

  /** What a GET delivers, in terms of the window. */
  lemma WindowDelivered(names: Naming, cs: nat, s: State, e: Event, key: string, range: Option<string>)
    requires cs > 0 && CrashSafe(names, cs, s) && key in s.upstream && IsGet(e, key, range)
    ensures var content := s.upstream[key].content;
            var w := Window(range, |content|);
            Delivers(s, ReplyOf(s, cs, e), w.2, content[w.0..w.1])
  {
    ReplyRight(names, cs, s, e);
  }

  /**
   * A GET whose Range header spells a satisfiable range, with numbers of 64 bits and an end that does not wrap: a
   * partial answer with exactly the bytes the range selects, in order, and their number.
   */
  lemma RangedReply(names: Naming, cs: nat, s: State, e: Event, key: string, header: string, spec: Spec)
    requires cs > 0 && CrashSafe(names, cs, s) && key in s.upstream && IsGet(e, key, Some(header))
    requires Spells(header, spec) && spec.Satisfiable(|s.upstream[key].content|) && spec.FitsU64() && !Wraps(spec)
    ensures Delivers(s, ReplyOf(s, cs, e), true, Selected(spec, s.upstream[key].content))
    ensures Selected(spec, s.upstream[key].content) != []
  {
    var content := s.upstream[key].content;
    WindowDelivered(names, cs, s, e, key, Some(header));
    SatisfiableRangesAgree(header, spec, |content|);
    var w := ParseRange(header, |content|).value;
    SelectedIsWindow(spec, content, w.0, w.1, |content|);
    SelectsSomething(spec, |content|);
  }

  lemma SelectsSomething(spec: Spec, size: nat)
    requires spec.Satisfiable(size)
    ensures exists i: nat :: spec.Selects(size, i)
  {
    var i := match spec case FirstLast(first, _) => first case From(first) => first case Suffix(_) => size - 1;
    assert spec.Selects(size, i);
  }

  /** A GET without a Range header, or with one that is refused: the whole object, as a full answer. */
  lemma WholeReply(names: Naming, cs: nat, s: State, e: Event, key: string, range: Option<string>)
    requires cs > 0 && CrashSafe(names, cs, s) && key in s.upstream && IsGet(e, key, range)
    requires range.Some? ==> ParseRange(range.value, |s.upstream[key].content|).None?
    ensures Delivers(s, ReplyOf(s, cs, e), false, s.upstream[key].content)
  {
    WindowDelivered(names, cs, s, e, key, range);
  }

  /** A valid range that selects nothing: the whole object if it overshoots, and otherwise an empty partial answer. */
  lemma UnsatisfiableReply(names: Naming, cs: nat, s: State, e: Event, key: string, header: string, spec: Spec)
    requires cs > 0 && CrashSafe(names, cs, s) && key in s.upstream && IsGet(e, key, Some(header))
    requires Spells(header, spec) && spec.Valid() && !spec.Satisfiable(|s.upstream[key].content|)
    ensures var content := s.upstream[key].content;
            if Overshoots(spec, |content|) then Delivers(s, ReplyOf(s, cs, e), false, content)
            else Delivers(s, ReplyOf(s, cs, e), true, []) && Unbroken(ReplyOf(s, cs, e).pieces)
  {
    WindowDelivered(names, cs, s, e, key, Some(header));
    UnsatisfiableRanges(header, spec, |s.upstream[key].content|);
    EmptyStream(s, cs, key, e.disk, |s.upstream[key].content|);
  }

  /** An empty window reads no chunk. */
  lemma EmptyStream(s: State, cs: nat, key: string, disk: Disk, at: nat)
    requires cs > 0 && key in s.upstream && at == |s.upstream[key].content|
    ensures Unbroken(ReadPieces(Replay(s, RefreshLog(s, key, cs, disk)), key, cs, at, at, at))
  {
  }

  /** A GET or HEAD of an object upstream does not have: no object, and the cache stays as it is. */
  lemma MissingReply(s: State, cs: nat, e: Event, key: string)
    requires cs > 0 && key !in s.upstream && (e.op.GetReq? || e.op.HeadReq?) && e.op.key == key && e.crashedAfter.None?
    ensures e.op.GetReq? ==> ReplyOf(s, cs, e) == NotFound
    ensures HeadersOf(s, cs, e) == None && Step(s, cs, e) == s
  {
  }

  /** A DELETE or COPY that upstream refuses changes nothing. */
  lemma RefusedChangesNothing(s: State, cs: nat, e: Event)
    requires cs > 0 && ((e.op.DeleteReq? && !e.op.accepted) || (e.op.CopyReq? && e.op.created.None?))
    ensures Step(s, cs, e) == s
  {
  }

  /**
   * Over whole runs: from a steady state, without crashes and lost files, every GET for a satisfiable range answers
   * with exactly the selected bytes of what upstream then stores.
   */
  lemma RangedReplyInRun(names: Naming, cs: nat, s: State, run: seq<Event>, i: nat, key: string, header: string, spec: Spec)
    requires cs > 0 && Steady(names, cs, s) && LegalRun(names, cs, s, run) && Calm(run) && i < |run|
    requires IsGet(run[i], key, Some(header)) && key in StateAt(s, cs, run, i).upstream && Spells(header, spec)
    requires spec.Satisfiable(|StateAt(s, cs, run, i).upstream[key].content|) && spec.FitsU64() && !Wraps(spec)
    ensures var t := StateAt(s, cs, run, i);
            var reply := ReplyOf(t, cs, run[i]);
            && reply.Found? && reply.isPartial && Unbroken(reply.pieces)
            && Contents(reply.pieces) == Selected(spec, t.upstream[key].content)
            && reply.contentLength == |Selected(spec, t.upstream[key].content)|
  {
    SteadyAt(names, cs, s, run, i);
    RangedReply(names, cs, StateAt(s, cs, run, i), run[i], key, header, spec);
  }

  /** PUT, any evictions, and a GET of a range: the bytes of the body that the range selects. */
  lemma PutThenRangedGet(names: Naming, cs: nat, s: State, put: Event, evict: Event, get: Event, header: string, spec: Spec)
    requires cs > 0 && Steady(names, cs, s) && put.op.PutReq? && evict.op.Evict? && IsGet(get, put.op.key, Some(header))
    requires put.crashedAfter.None? && evict.crashedAfter.None?
    requires Legal(names, cs, s, put) && AsPut(put.op, cs, put.disk).Succeeds()
    requires Spells(header, spec) && spec.Satisfiable(|Contents(put.op.pieces)|) && spec.FitsU64() && !Wraps(spec)
    ensures var reply := ReplyOf(Step(Step(s, cs, put), cs, evict), cs, get);
            && reply.Found? && reply.isPartial && Unbroken(reply.pieces)
            && Contents(reply.pieces) == Selected(spec, Contents(put.op.pieces))
            && reply.contentLength == |Selected(spec, Contents(put.op.pieces))|
  {
    var t := Step(s, cs, put);
    CalmEvent(names, cs, s, put);
    CalmEvent(names, cs, t, evict);
    AcceptedBody(names, cs, s, put);
    RangedReply(names, cs, Step(t, cs, evict), get, put.op.key, header, spec);
  }

  // --- response headers ---

  /** The headers of an answer to GET or HEAD; `hot` is the X-S3XC-CACHED header. */
  datatype ResponseHeaders = ResponseHeaders(contentLength: nat, contentType: Option<string>, etag: Option<string>,
                                             lastModified: int, contentRange: Option<string>, hot: bool)

  /** A header that is set only if its text is a valid header value. */
  function IfValid(text: Option<string>): Option<string> {
    if text.Some? && Text.ValidHeaderValue(text.value) then text else None
  }

  /** The record exists, and the object is empty or its first chunk is cached. */
  predicate IsHot(s: State, key: string) {
    key in s.objects && (s.objects[key].contentLength == 0 || IsHit(s, ChunkId(key, 0)))
  }

  function ContentRange(start: nat, end: nat, size: nat): string {
    "bytes " + Decimal.Print(start) + ['-'] + Decimal.Print(SaturatingSub(end, 1)) + ['/'] + Decimal.Print(size)
  }

  function DescribedBy(meta: ObjectMeta, contentLength: nat, contentRange: Option<string>, hot: bool): ResponseHeaders {
    ResponseHeaders(contentLength, IfValid(meta.contentType), IfValid(meta.etag), meta.lastModified, contentRange, hot)
  }

  /** The response headers of a GET or HEAD of an object upstream has. */
  function HeadersOf(s: State, cs: nat, e: Event): Option<ResponseHeaders>
    requires cs > 0 && (e.op.GetReq? || e.op.HeadReq?)
  {
    var key := e.op.key;
    if key !in s.upstream then None
    else
      var meta, hot := s.upstream[key].Meta(), IsHot(Step(s, cs, e), key);
      if e.op.HeadReq? then Some(DescribedBy(meta, meta.contentLength, None, hot))
      else
        var w := Window(e.op.range, meta.contentLength);
        var contentRange := if w.2 then Some(ContentRange(w.0, w.1, meta.contentLength)) else None;
        Some(DescribedBy(meta, SaturatingSub(w.1, w.0), contentRange, hot))
  }

  /** The headers describe the object upstream stores. */
  ghost predicate Describes(h: ResponseHeaders, o: Object) {
    && (h.contentType.Some? ==> h.contentType == o.contentType)
    && (h.contentType.None? ==> o.contentType.None? || !Text.ValidHeaderValue(o.contentType.value))
    && (h.etag.Some? ==> h.etag == o.etag)
    && (h.etag.None? ==> o.etag.None? || !Text.ValidHeaderValue(o.etag.value))
    && h.lastModified == o.lastModified
  }

  /** HEAD reports the object upstream stores. */
  lemma HeadReports(s: State, cs: nat, e: Event, key: string)
    requires cs > 0 && key in s.upstream && e.op == HeadReq(key)
    ensures var o, h := s.upstream[key], HeadersOf(s, cs, e);
            h.Some? && h.value.contentLength == |o.content| && h.value.contentRange.None? && Describes(h.value, o)
  {
  }

  /** And it keeps exactly what it reports as its record. */
  lemma HeadRecords(s: State, cs: nat, e: Event, key: string)
    requires cs > 0 && key in s.upstream && e.op == HeadReq(key) && e.crashedAfter.None?
    ensures var o, t := s.upstream[key], Step(s, cs, e);
            key in t.objects && t.objects[key] == ObjectMeta(|o.content|, o.contentType, o.etag, o.lastModified)
  {
    assert Step(s, cs, e) == Replay(s, LogOf(s, cs, e));
    RefreshEffect(s, key, cs, e.disk);
  }

  /** The first and the last position a specifier selects. */
  ghost predicate Spans(spec: Spec, size: nat, first: nat, last: nat) {
    && spec.Selects(size, first) && spec.Selects(size, last)
    && (forall i: nat :: spec.Selects(size, i) ==> first <= i <= last)
  }

  /**
   * A partial answer to a satisfiable range names the first and the last position selected and the object's size, and
   * announces as many bytes as lie between them.
   */
  lemma RangedHeaders(s: State, cs: nat, e: Event, key: string, header: string, spec: Spec, first: nat, last: nat)
    requires cs > 0 && key in s.upstream && IsGet(e, key, Some(header))
    requires Spells(header, spec) && spec.Satisfiable(|s.upstream[key].content|) && spec.FitsU64() && !Wraps(spec)
    requires Spans(spec, |s.upstream[key].content|, first, last)
    ensures var o, h := s.upstream[key], HeadersOf(s, cs, e);
            && h.Some? && Describes(h.value, o) && h.value.contentLength == last - first + 1
            && h.value.contentRange
               == Some("bytes " + Decimal.Print(first) + ['-'] + Decimal.Print(last) + ['/'] + Decimal.Print(|o.content|))
  {
    RangedWindow(header, spec, |s.upstream[key].content|, first, last);
    GetHeaders(s, cs, e, key, Some(header), first, last + 1, true);
  }

  /** The answer to a GET, given its window. */
  lemma GetAnswer(s: State, cs: nat, e: Event, key: string, range: Option<string>, start: nat, end: nat, isPartial: bool)
    requires cs > 0 && key in s.upstream && IsGet(e, key, range)
    requires Window(range, |s.upstream[key].content|) == (start, end, isPartial)
    ensures ReplyOf(s, cs, e) == Found(isPartial, SaturatingSub(end, start), StreamOf(s, key, range, cs, e.disk))
  {
  }

  lemma GetDescribed(s: State, cs: nat, e: Event, key: string, range: Option<string>, start: nat, end: nat, isPartial: bool)
    requires cs > 0 && key in s.upstream && IsGet(e, key, range)
    requires Window(range, |s.upstream[key].content|) == (start, end, isPartial)
    ensures var meta := s.upstream[key].Meta();
            var contentRange := if isPartial then Some(ContentRange(start, end, meta.contentLength)) else None;
            HeadersOf(s, cs, e)
            == Some(DescribedBy(meta, SaturatingSub(end, start), contentRange, IsHot(Step(s, cs, e), key)))
  {
  }

  /** The response headers of a GET, given its window. */
  lemma GetHeaders(s: State, cs: nat, e: Event, key: string, range: Option<string>, start: nat, end: nat, isPartial: bool)
    requires cs > 0 && key in s.upstream && IsGet(e, key, range)
    requires Window(range, |s.upstream[key].content|) == (start, end, isPartial)
    ensures var o, h := s.upstream[key], HeadersOf(s, cs, e);
            && h.Some? && Describes(h.value, o) && h.value.contentLength == end - start
            && h.value.contentRange == if isPartial then Some(ContentRange(start, end, |o.content|)) else None
  {
    GetDescribed(s, cs, e, key, range, start, end, isPartial);
  }

  lemma RangedWindow(header: string, spec: Spec, size: u64, first: nat, last: nat)
    requires Spells(header, spec) && spec.Satisfiable(size) && spec.FitsU64() && !Wraps(spec)
    requires Spans(spec, size, first, last)
    ensures Window(Some(header), size) == (first, last + 1, true)
  {
    SatisfiableRangesAgree(header, spec, size);
    var w := ParseRange(header, size).value;
    SpannedWindow(spec, size, first, last, w.0, w.1);
  }

  lemma SpannedWindow(spec: Spec, size: nat, first: nat, last: nat, lo: nat, hi: nat)
    requires Spans(spec, size, first, last)
    requires forall i: nat :: spec.Selects(size, i) <==> lo <= i < hi
    ensures lo == first && hi == last + 1
  {
    assert spec.Selects(size, first) && spec.Selects(size, last);
    assert spec.Selects(size, lo) && spec.Selects(size, hi - 1);
  }

  /** A full answer announces the whole object; an empty partial one states a range that ends before it starts. */
  lemma UnrangedHeaders(s: State, cs: nat, e: Event, key: string, range: Option<string>)
    requires cs > 0 && key in s.upstream && IsGet(e, key, range)
    ensures var o, h := s.upstream[key], HeadersOf(s, cs, e);
            && h.Some? && Describes(h.value, o)
            && (range.None? || ParseRange(range.value, |o.content|).None? ==>
                  h.value.contentLength == |o.content| && h.value.contentRange.None?)
            && (range.Some? && ParseRange(range.value, |o.content|) == Some((|o.content|, |o.content|)) ==>
                  && h.value.contentLength == 0
                  && h.value.contentRange == Some(ContentRange(|o.content|, |o.content|, |o.content|)))
  {
    var w := Window(range, |s.upstream[key].content|);
    GetHeaders(s, cs, e, key, range, w.0, w.1, w.2);
  }

  /** The cache status is hot exactly when the object is empty or its first chunk is registered as complete. */
  lemma HotExactly(names: Naming, cs: nat, s: State, e: Event, key: string)
    requires cs > 0 && CrashSafe(names, cs, s) && key in s.upstream && (e.op.HeadReq? || e.op.GetReq?) && e.op.key == key
    requires e.crashedAfter.None?
    ensures var t, id := Step(s, cs, e), ChunkId(key, 0);
            HeadersOf(s, cs, e).value.hot
            <==> |s.upstream[key].content| == 0 || (id in t.entries && t.entries[id].status == Complete)
  {
    RecordAfter(names, cs, s, e, key);
    StatusIs(s, cs, e, key);
  }

  lemma StatusIs(s: State, cs: nat, e: Event, key: string)
    requires cs > 0 && key in s.upstream && (e.op.HeadReq? || e.op.GetReq?) && e.op.key == key
    ensures HeadersOf(s, cs, e).Some? && HeadersOf(s, cs, e).value.hot == IsHot(Step(s, cs, e), key)
  {
  }

  /** After a GET or a HEAD the record is what upstream reports. */
  lemma RecordAfter(names: Naming, cs: nat, s: State, e: Event, key: string)
    requires cs > 0 && CrashSafe(names, cs, s) && key in s.upstream && (e.op.HeadReq? || e.op.GetReq?) && e.op.key == key
    requires e.crashedAfter.None?
    ensures var t := Step(s, cs, e); key in t.objects && t.objects[key] == s.upstream[key].Meta()
  {
    assert Step(s, cs, e) == Replay(s, LogOf(s, cs, e));
    if e.op.HeadReq? {
      RefreshEffect(s, key, cs, e.disk);
    } else {
      GetDisciplined(names, cs, s, key, e.op.range, e.disk, e.clock);
    }
  }
}

/** The upstream store as the proxy client sees it; the network is reduced to the outcome of each request. */
module Upstream {
  import opened Basics
  import opened CacheModel
  import opened Journal

  class ProxyClient {
    const journal: Journal
    var store: map<string, Object>

    constructor (journal: Journal, store: map<string, Object>)
      ensures this.store == store && this.journal == journal
    {
      this.journal, this.store := journal, store;
    }

    /** HEAD: the object's headers, or None for 404. */
    method HeadObject(key: string) returns (meta: Option<ObjectMeta>)
      ensures meta == if key in store then Some(store[key].Meta()) else None
    {
      meta := if key in store then Some(store[key].Meta()) else None;
    }

    /** GET with `Range: bytes=first-last`, gathered to its end. */
    method GetObjectRange(key: string, first: nat, last: nat) returns (body: Piece)
      ensures body == UpstreamRange(store, key, first, last)
    {
      body := UpstreamRange(store, key, first, last);
    }

    /** The end of an upload task: the ETag, empty when the response had none, or None for an error. */
    method PutObjectStream(key: string, upload: Upload) returns (etag: Option<string>)
      modifies this, journal
      ensures store == match upload.Effect() case None => old(store) case Some(o) => old(store)[key := o]
      ensures journal.log == old(journal.log) + CommitLog(key, upload.Effect())
      ensures etag == if upload.Accepted? then Some(upload.stored.etag.GetOr("")) else None
    {
      if upload.Effect().Some? {
        store := store[key := upload.Effect().value];
      }
      journal.Note(CommitLog(key, upload.Effect()));
      etag := if upload.Accepted? then Some(upload.stored.etag.GetOr("")) else None;
    }

    method DeleteObject(key: string, accepted: bool) returns (ok: bool)
      modifies this, journal
      ensures ok == accepted
      ensures store == if accepted then old(store) - {key} else old(store)
      ensures journal.log == old(journal.log) + (if accepted then [Remove(key)] else [])
    {
      if accepted {
        store := store - {key};
        journal.Note([Remove(key)]);
      }
      ok := accepted;
    }

    /** The ETag of the copy, empty when the response had none, or None for an error. */
    method CopyObject(dest: string, created: Option<Object>) returns (etag: Option<string>)
      modifies this, journal
      ensures etag == match created case None => None case Some(o) => Some(o.etag.GetOr(""))
      ensures store == match created case None => old(store) case Some(o) => old(store)[dest := o]
      ensures journal.log == old(journal.log) + CommitLog(dest, created)
    {
      if created.Some? {
        store := store[dest := created.value];
        journal.Note([Commit(dest, created.value)]);
      }
      etag := match created case None => None case Some(o) => Some(o.etag.GetOr(""));
    }
  }
}

/**
 * The running service: the state captured by the handlers' closures (the
 * `urls` collection and the counter `sequenceID`, server.js:16-28), and the
 * two request handlers as methods that update it in place.
 */
module Service {
  import opened Wrappers
  import opened Base36
  import opened RecordStore
  import opened Allocator
  import opened Resolver

  class Shortener {
    var urls: seq<Record>
    var sequenceID: nat

    function Current(): State
      reads this
    {
      State(urls, sequenceID)
    }

    ghost predicate Valid()
      reads this
    {
      Allocator.Valid(Current())
    }

    /** Start-up over the collection as the database holds it, whose unique indexes it inherits; the counter starts at 0 (server.js:28). */
    constructor (existing: seq<Record>)
      requires UniqueUrls(existing) && UniqueIds(existing)
      ensures Valid() && urls == existing && sequenceID == 0
    {
      urls := existing;
      sequenceID := 0;
    }

    /** `urls.insertOne(doc)`: refused, with nothing written, when either unique index already holds `doc`'s key. */
    method InsertOne(doc: Record) returns (ok: bool)
      modifies this
      ensures ok <==> Insertable(old(urls), doc)
      ensures urls == (if ok then old(urls) + [doc] else old(urls))
      ensures sequenceID == old(sequenceID)
      ensures old(UniqueUrls(urls) && UniqueIds(urls)) ==> UniqueUrls(urls) && UniqueIds(urls)
    {
      ok := FindByUrl(urls, doc.originalUrl).None? && FindById(urls, doc.sequenceId).None?;
      if ok {
        urls := urls + [doc];
      }
    }

    /**
     * `GET /new/:url` after validation: return the stored record for `url`
     * if there is one (`alreadyExists`), otherwise move the counter past the
     * highest stored id and insert a new record. `key` is the base-36 part
     * of the `short_url` in the response.
     */
    method Shorten(url: string) returns (doc: Record, key: string)
      requires Valid()
      modifies this
      ensures Valid()
      ensures (Current(), doc) == ShortenStep(old(Current()), url)
      ensures key == Encode(doc.sequenceId) && Lookup(urls, key) == Some(url)
    {
      ghost var before := Current();
      ShortenPreservesValid(before, url);
      ShortenThenResolve(before, url);
      var existing := FindByUrl(urls, url);
      if existing.Some? {
        doc := existing.value;
      } else {
        var top := MaxRecord(urls);
        if top.Some? {
          sequenceID := top.value.sequenceId + 1;
        }
        assert sequenceID == NextId(before.urls, before.sequenceID);
        doc := Record(url, sequenceID);
        var inserted := InsertOne(doc);
        // An insert error is thrown at server.js:49; sequentially it cannot occur.
        assert inserted by {
          assert Insertable(before.urls, ShortenStep(before, url).1);
        }
        assert Current() == ShortenStep(before, url).0;
      }
      key := Encode(doc.sequenceId);
    }

    /** `GET /:urlKey`: the redirect target, or `None` for the 404 response; nothing is changed. */
    method Resolve(key: string) returns (target: Option<string>)
      ensures target == Lookup(urls, key)
    {
      var id := Decode(key);
      if id.None? {
        return None;
      }
      var doc := FindById(urls, id.value);
      if doc.Some? {
        target := Some(doc.value.originalUrl);
      } else {
        target := None;
      }
    }
  }
}

/**
 * The redirect route `GET /:urlKey` (server.js:62-82): decode the key with
 * `parseInt(key, 36)` and look the id up. A key that is not a number, or a
 * number no record carries, is the 404 "No URL associated with this key.".
 */
module Resolver {
  import opened Wrappers
  import opened Base36
  import opened RecordStore
  import opened Allocator

  /** The redirect target for `key`, or `None` for the 404 response. */
  function Lookup(urls: seq<Record>, key: string): (r: Option<string>)
    ensures r.Some? <==> Decode(key).Some? && HasId(urls, Decode(key).value)
    ensures r.Some? ==> exists i :: 0 <= i < |urls| && urls[i].sequenceId == Decode(key).value && urls[i].originalUrl == r.value
  {
    match Decode(key)
    case None => None
    case Some(id) =>
      match FindById(urls, id)
      case None => None
      case Some(doc) => Some(doc.originalUrl)
  }

  /** The key of every stored record resolves to that record's URL. */
  lemma ResolveStored(urls: seq<Record>, k: nat)
    requires UniqueIds(urls) && k < |urls|
    ensures Lookup(urls, Encode(urls[k].sequenceId)) == Some(urls[k].originalUrl)
  {
    RoundTrip(urls[k].sequenceId);
    FindByIdUnique(urls, k);
  }

  /** The key handed out for a shortened URL redirects back to that URL. */
  lemma ShortenThenResolve(s: State, url: string)
    requires Valid(s)
    ensures var (t, doc) := ShortenStep(s, url); Lookup(t.urls, Encode(doc.sequenceId)) == Some(url)
  {
    var (t, doc) := ShortenStep(s, url);
    ShortenPreservesValid(s, url);
    var k :| 0 <= k < |t.urls| && t.urls[k] == doc;
    ResolveStored(t.urls, k);
  }

  /** After two URLs are shortened on an empty store, key "0" redirects to the first, "1" to the second, and "zz" is not found. */
  lemma FirstTwoResolve(first: string, second: string)
    requires first != second
    ensures var t := ShortenStep(ShortenStep(State([], 0), first).0, second).0;
      && Encode(0) == "0" && Lookup(t.urls, "0") == Some(first)
      && Encode(1) == "1" && Lookup(t.urls, "1") == Some(second)
      && Lookup(t.urls, "zz") == None
  {
    FirstTwoIds(first, second);
    var urls := [Record(first, 0), Record(second, 1)];
    ResolveStored(urls, 0);
    ResolveStored(urls, 1);
    assert Decode("zz") == Some(1295);
  }
}

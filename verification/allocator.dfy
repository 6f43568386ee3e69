/**
 * The allocation handler of `GET /new/:url` (server.js:32-58) together with
 * its `alreadyExists` middleware (server.js:113-136), as a function on the
 * shortener's persistent state. The class `Service.Shortener` runs the same
 * steps imperatively and is proved to agree with `ShortenStep`.
 */
module Allocator {
  import opened Wrappers
  import opened RecordStore

  /** The `urls` collection and the closure variable `sequenceID` (server.js:28). */
  datatype State = State(urls: seq<Record>, sequenceID: nat)

  /** What holds between requests: both unique indexes, and an untouched counter while the store is empty. */
  ghost predicate Valid(s: State)
  {
    UniqueUrls(s.urls) && UniqueIds(s.urls) && (s.urls == [] ==> s.sequenceID == 0)
  }

  /** Ids grow with insertion order. */
  ghost predicate IdsIncreasing(rs: seq<Record>)
  {
    forall i, j :: 0 <= i < j < |rs| ==> rs[i].sequenceId < rs[j].sequenceId
  }

  /** `insertOne(doc)` succeeds exactly when neither unique index already holds `doc`'s key. */
  ghost predicate Insertable(rs: seq<Record>, doc: Record)
  {
    !HasUrl(rs, doc.originalUrl) && !HasId(rs, doc.sequenceId)
  }

  /**
   * The id of the next record (server.js:37-42): one more than the highest
   * stored id, or the counter's current value when the store is empty.
   */
  function NextId(urls: seq<Record>, counter: nat): (id: nat)
    ensures urls == [] ==> id == counter
    ensures forall i :: 0 <= i < |urls| ==> urls[i].sequenceId < id
    ensures urls != [] ==> id >= 1 && HasId(urls, id - 1)
  {
    match MaxRecord(urls)
    case None => counter
    case Some(top) => top.sequenceId + 1
  }

  /** One `GET /new/:url` request: the record returned and the state afterwards. */
  function ShortenStep(s: State, url: string): (r: (State, Record))
    ensures r.1.originalUrl == url && r.1 in r.0.urls
    ensures HasUrl(s.urls, url) ==> r.0 == s
    ensures !HasUrl(s.urls, url) ==>
      && Insertable(s.urls, r.1)
      && r.0.urls == s.urls + [r.1]
      && r.0.sequenceID == r.1.sequenceId
      && (forall i :: 0 <= i < |s.urls| ==> s.urls[i].sequenceId < r.1.sequenceId)
    ensures s.urls == [] ==> r.1.sequenceId == s.sequenceID
  {
    match FindByUrl(s.urls, url)
    case Some(doc) => (s, doc)
    case None =>
      var id := NextId(s.urls, s.sequenceID);
      var doc := Record(url, id);
      assert !HasId(s.urls, id);
      (State(s.urls + [doc], id), doc)
  }

  /** A new record's id is exactly one more than the highest stored id. */
  lemma NewIdIsMaxPlusOne(s: State, url: string)
    requires !HasUrl(s.urls, url) && s.urls != []
    ensures var doc := ShortenStep(s, url).1;
      && doc.sequenceId >= 1 && HasId(s.urls, doc.sequenceId - 1)
      && forall i :: 0 <= i < |s.urls| ==> s.urls[i].sequenceId <= doc.sequenceId - 1
  {
    assert ShortenStep(s, url).1.sequenceId == NextId(s.urls, s.sequenceID);
  }

  /** Both unique indexes hold after a request, and the first record on an empty store gets id 0. */
  lemma ShortenPreservesValid(s: State, url: string)
    requires Valid(s)
    ensures Valid(ShortenStep(s, url).0)
    ensures s.urls == [] ==> ShortenStep(s, url).1.sequenceId == 0
  {
    var (t, doc) := ShortenStep(s, url);
    if !HasUrl(s.urls, url) {
      assert forall i :: 0 <= i < |s.urls| ==> t.urls[i] == s.urls[i] && s.urls[i].originalUrl != url;
    }
  }

  /** Ids keep growing with insertion order. */
  lemma ShortenKeepsOrder(s: State, url: string)
    requires IdsIncreasing(s.urls)
    ensures IdsIncreasing(ShortenStep(s, url).0.urls)
  {
    var (t, doc) := ShortenStep(s, url);
    if !HasUrl(s.urls, url) {
      assert forall i :: 0 <= i < |s.urls| ==> t.urls[i] == s.urls[i];
    }
  }

  /**
   * Shortening the same URL again returns the same record and changes
   * nothing, from any state: the second lookup finds the record the first
   * call returned or inserted.
   */
  lemma ShortenIdempotent(s: State, url: string)
    ensures ShortenStep(ShortenStep(s, url).0, url) == ShortenStep(s, url)
  {
  }

  /** Sequential requests for the URLs of `us`, in order. */
  function ShortenAll(s: State, us: seq<string>): (t: State)
    ensures s.urls <= t.urls
    decreases |us|
  {
    if us == [] then s else ShortenStep(ShortenAll(s, us[..|us| - 1]), us[|us| - 1]).0
  }

  /** Any sequence of requests keeps both unique indexes. */
  lemma {:induction false} ShortenAllPreservesValid(s: State, us: seq<string>)
    requires Valid(s)
    ensures Valid(ShortenAll(s, us))
    decreases |us|
  {
    if us != [] {
      ShortenAllPreservesValid(s, us[..|us| - 1]);
      ShortenPreservesValid(ShortenAll(s, us[..|us| - 1]), us[|us| - 1]);
    }
  }

  /** No URL occurs twice. */
  ghost predicate Distinct(us: seq<string>)
  {
    forall i, j :: 0 <= i < j < |us| ==> us[i] != us[j]
  }

  /** URLs none of which is stored yet. */
  ghost predicate AllUnseen(s: State, us: seq<string>)
  {
    forall k :: 0 <= k < |us| ==> !HasUrl(s.urls, us[k])
  }

  /** The `original_url` column of a run of records, in order. */
  function UrlsOf(rs: seq<Record>): (r: seq<string>)
    ensures |r| == |rs| && forall i :: 0 <= i < |rs| ==> r[i] == rs[i].originalUrl
  {
    seq(|rs|, i requires 0 <= i < |rs| => rs[i].originalUrl)
  }

  /** Dropping the last of several distinct unseen URLs leaves them distinct and unseen, and without the last one. */
  lemma FrontFresh(s: State, us: seq<string>)
    requires Distinct(us) && AllUnseen(s, us) && us != []
    ensures Distinct(us[..|us| - 1]) && AllUnseen(s, us[..|us| - 1])
    ensures us[|us| - 1] !in us[..|us| - 1]
  {
    assert forall k :: 0 <= k < |us| - 1 ==> us[..|us| - 1][k] == us[k];
  }

  /** A URL neither stored in `s` nor among `front` is not in a store whose URL column is `s`'s followed by `front`. */
  lemma NotAmong(rs: seq<Record>, s: State, front: seq<string>, url: string)
    requires UrlsOf(rs) == UrlsOf(s.urls) + front
    requires !HasUrl(s.urls, url) && url !in front
    ensures !HasUrl(rs, url)
  {
  }

  /**
   * Shortening N distinct, previously unseen URLs appends exactly N records,
   * one per URL in request order; ids stay unique by `Valid`.
   */
  lemma {:induction false} ShortenAllFresh(s: State, us: seq<string>)
    requires Distinct(us) && AllUnseen(s, us)
    ensures UrlsOf(ShortenAll(s, us).urls) == UrlsOf(s.urls) + us
    decreases |us|
  {
    if us == [] {
      assert UrlsOf(s.urls) + us == UrlsOf(s.urls);
    } else {
      var n := |us| - 1;
      FrontFresh(s, us);
      ShortenAllFresh(s, us[..n]);
      NotAmong(ShortenAll(s, us[..n]).urls, s, us[..n], us[n]);
      FreshUrlAppended(ShortenAll(s, us[..n]), us[n]);
      assert us[..n] + [us[n]] == us;
    }
  }

  /** A request for an unseen URL adds that URL at the end of the URL column. */
  lemma FreshUrlAppended(s: State, url: string)
    requires !HasUrl(s.urls, url)
    ensures UrlsOf(ShortenStep(s, url).0.urls) == UrlsOf(s.urls) + [url]
  {
  }

  /** Shortening the same URL any positive number of times leaves one record for it. */
  lemma {:induction false} ShortenAllRepeated(s: State, url: string, m: nat)
    requires m >= 1
    ensures ShortenAll(s, seq(m, _ => url)) == ShortenStep(s, url).0
    decreases m
  {
    var us := seq(m, _ => url);
    if m > 1 {
      assert us[..m - 1] == seq(m - 1, _ => url);
      ShortenAllRepeated(s, url, m - 1);
      ShortenIdempotent(s, url);
      assert ShortenAll(s, us) == ShortenStep(ShortenStep(s, url).0, url).0;
    } else {
      assert us[..0] == [];
    }
  }

  /** On an empty store two different URLs get ids 0 and 1, in request order. */
  lemma FirstTwoIds(first: string, second: string)
    requires first != second
    ensures ShortenStep(State([], 0), first) == (State([Record(first, 0)], 0), Record(first, 0))
    ensures ShortenStep(State([Record(first, 0)], 0), second) == (State([Record(first, 0), Record(second, 1)], 1), Record(second, 1))
  {
    assert FindByUrl([], first) == None;
    assert [] + [Record(first, 0)] == [Record(first, 0)];
    assert FindByUrl([Record(first, 0)], second) == None;
    assert MaxRecord([Record(first, 0)]) == Some(Record(first, 0));
    assert [Record(first, 0)] + [Record(second, 1)] == [Record(first, 0), Record(second, 1)];
  }
}

/**
 * The `urls` collection: `{original_url, sequence_id}` documents with a
 * unique index on each field (server.js:18-22), and the three queries the
 * handlers run against it. The collection is modelled as a sequence of
 * records in insertion order. Which match `find(...).limit(1)` returns is
 * unspecified by the database; the model takes the first in sequence
 * order. Under the unique indexes at most one record matches, so the
 * choice makes no difference (`FindByUrlUnique`, `FindByIdUnique`).
 */
module RecordStore {
  import opened Wrappers

  datatype Record = Record(originalUrl: string, sequenceId: nat)

  /** The unique index on `original_url`. */
  ghost predicate UniqueUrls(rs: seq<Record>)
  {
    forall i, j :: 0 <= i < j < |rs| ==> rs[i].originalUrl != rs[j].originalUrl
  }

  /** The unique index on `sequence_id`. */
  ghost predicate UniqueIds(rs: seq<Record>)
  {
    forall i, j :: 0 <= i < j < |rs| ==> rs[i].sequenceId != rs[j].sequenceId
  }

  ghost predicate HasUrl(rs: seq<Record>, url: string)
  {
    exists i :: 0 <= i < |rs| && rs[i].originalUrl == url
  }

  ghost predicate HasId(rs: seq<Record>, id: nat)
  {
    exists i :: 0 <= i < |rs| && rs[i].sequenceId == id
  }

  /** `urls.find({original_url: url}).limit(1)` (the `alreadyExists` check). */
  function FindByUrl(rs: seq<Record>, url: string): (r: Option<Record>)
    ensures r.Some? <==> HasUrl(rs, url)
    ensures r.Some? ==> r.value in rs && r.value.originalUrl == url
  {
    if rs == [] then None
    else if rs[0].originalUrl == url then Some(rs[0])
    else
      var r := FindByUrl(rs[1..], url);
      assert HasUrl(rs[1..], url) ==> HasUrl(rs, url) by {
        if HasUrl(rs[1..], url) {
          var i :| 0 <= i < |rs[1..]| && rs[1..][i].originalUrl == url;
          assert rs[i + 1].originalUrl == url;
        }
      }
      r
  }

  /** `urls.find({sequence_id: id}).limit(1)` (the redirect route). */
  function FindById(rs: seq<Record>, id: nat): (r: Option<Record>)
    ensures r.Some? <==> HasId(rs, id)
    ensures r.Some? ==> r.value in rs && r.value.sequenceId == id
  {
    if rs == [] then None
    else if rs[0].sequenceId == id then Some(rs[0])
    else
      var r := FindById(rs[1..], id);
      assert HasId(rs[1..], id) ==> HasId(rs, id) by {
        if HasId(rs[1..], id) {
          var i :| 0 <= i < |rs[1..]| && rs[1..][i].sequenceId == id;
          assert rs[i + 1].sequenceId == id;
        }
      }
      r
  }

  /** `urls.find().sort({sequence_id: -1}).limit(1)`: a record with the highest id, absent on an empty store. */
  function MaxRecord(rs: seq<Record>): (r: Option<Record>)
    ensures r.None? <==> rs == []
    ensures r.Some? ==> r.value in rs
    ensures r.Some? ==> forall i :: 0 <= i < |rs| ==> rs[i].sequenceId <= r.value.sequenceId
  {
    if rs == [] then None
    else
      match MaxRecord(rs[1..])
      case None => Some(rs[0])
      case Some(m) =>
        assert forall i :: 1 <= i < |rs| ==> rs[i] == rs[1..][i - 1];
        if rs[0].sequenceId >= m.sequenceId then Some(rs[0]) else Some(m)
  }

  /** Under the unique index on `original_url`, the lookup returns THE record stored for `url`. */
  lemma FindByUrlUnique(rs: seq<Record>, k: nat)
    requires UniqueUrls(rs)
    requires k < |rs|
    ensures FindByUrl(rs, rs[k].originalUrl) == Some(rs[k])
  {
    var r := FindByUrl(rs, rs[k].originalUrl);
    var j :| 0 <= j < |rs| && rs[j] == r.value;
    assert j == k;
  }

  /** Under the unique index on `sequence_id`, the lookup returns THE record stored with `id`. */
  lemma FindByIdUnique(rs: seq<Record>, k: nat)
    requires UniqueIds(rs)
    requires k < |rs|
    ensures FindById(rs, rs[k].sequenceId) == Some(rs[k])
  {
    var r := FindById(rs, rs[k].sequenceId);
    var j :| 0 <= j < |rs| && rs[j] == r.value;
    assert j == k;
  }
}

/**
 * The release-index client: collects the release ids the index's collection
 * entries list for one metadata entry, looks each one up, and creates a release
 * for every detail record that has a content hash and a download URL. A release
 * whose hash the index redacted is marked private.
 *
 * The HTTP requests are not modelled: the collection request's outcome is the
 * `CollectionResponse` argument, and `lookup` gives the outcome of the detail
 * request for each release id.
 */
module SeadexClient {
  import opened Wrappers
  import opened Records

  /** A collection entry of the index; `trs` is its list of release ids (`None` when missing). */
  datatype CollectionEntry = CollectionEntry(trs: Option<seq<string>>)

  /** The outcome of the collection request: an error, or the matching entries. */
  datatype CollectionResponse = CollectionRequestFailed | Collection(entries: seq<CollectionEntry>)

  /** The detail record of one release; `None` is a missing field. */
  datatype TorrentDetail = TorrentDetail(
    infoHash: Option<string>,
    tracker: Option<string>,
    url: Option<string>,
    isBest: Option<bool>,
    dualAudio: Option<bool>)

  /** The outcome of a detail request: an error, or the matching records. */
  datatype DetailResponse = DetailRequestFailed | DetailItems(items: seq<TorrentDetail>)

  /** The value the index puts in place of the content hash of an access-restricted release. */
  const Redacted: string := "<redacted>"

  /** The field values a release is created with. */
  datatype ReleaseFields = ReleaseFields(
    id: string,
    infoHash: string,
    tracker: string,
    url: string,
    isBest: bool,
    dualAudio: bool,
    private: bool)

  /** `get_torrent_info`: the first record of a successful detail request, if there is one. */
  function TorrentInfo(response: DetailResponse): (d: Option<TorrentDetail>)
    ensures d.Some? <==> response.DetailItems? && response.items != []
    ensures d.Some? ==> d.value == response.items[0]
  {
    match response
    case DetailRequestFailed => None
    case DetailItems(items) => if items == [] then None else Some(items[0])
  }

  /**
   * The release a detail record becomes: none without a content hash or a URL;
   * otherwise missing tracker and flags default to "" and false, and the release
   * is private exactly when its hash is redacted.
   */
  function ToRelease(id: string, d: TorrentDetail): (r: Option<ReleaseFields>)
    ensures r.Some? <==> d.infoHash.GetOr("") != "" && d.url.GetOr("") != ""
    ensures r.Some? ==> r.value.id == id && r.value.infoHash == d.infoHash.value && r.value.url == d.url.value
    ensures r.Some? ==> r.value.tracker == d.tracker.GetOr("")
    ensures r.Some? ==> r.value.isBest == d.isBest.GetOr(false) && r.value.dualAudio == d.dualAudio.GetOr(false)
    ensures r.Some? ==> (r.value.private <==> d.infoHash.value == Redacted)
  {
    var infoHash := d.infoHash.GetOr("");
    var url := d.url.GetOr("");
    if infoHash == "" || url == "" then None
    else
      Some(ReleaseFields(id, infoHash, d.tracker.GetOr(""), url,
                         d.isBest.GetOr(false), d.dualAudio.GetOr(false), infoHash == Redacted))
  }

  /** The release ids of the collection entries, concatenated in entry order. */
  function TrsIds(entries: seq<CollectionEntry>): seq<string> {
    if entries == [] then []
    else TrsIds(entries[..|entries| - 1]) + entries[|entries| - 1].trs.GetOr([])
  }

  /** The release (if any) one id gives. */
  function ReleaseOf(id: string, lookup: string -> DetailResponse): Option<ReleaseFields> {
    match TorrentInfo(lookup(id))
    case None => None
    case Some(d) => ToRelease(id, d)
  }

  /** The release one id gives, as a list of zero or one element. */
  function ReleaseList(id: string, lookup: string -> DetailResponse): seq<ReleaseFields> {
    if ReleaseOf(id, lookup).Some? then [ReleaseOf(id, lookup).value] else []
  }

  /** The releases the ids give, in id order (repeated ids give repeated releases). */
  function Releases(ids: seq<string>, lookup: string -> DetailResponse): seq<ReleaseFields> {
    if ids == [] then []
    else Releases(ids[..|ids| - 1], lookup) + ReleaseList(ids[|ids| - 1], lookup)
  }

  /** The result of `get_seadex_releases`, as field values. */
  function SeadexReleases(response: CollectionResponse, lookup: string -> DetailResponse): seq<ReleaseFields> {
    match response
    case CollectionRequestFailed => []
    case Collection(entries) => Releases(TrsIds(entries), lookup)
  }

  /** A release object carries exactly the given field values. */
  predicate Describes(t: Trs, f: ReleaseFields) {
    t.id == f.id && t.infoHash == f.infoHash && t.tracker == f.tracker && t.url == f.url &&
    t.isBest == f.isBest && t.dualAudio == f.dualAudio && t.private == f.private
  }

  /**
   * `get_seadex_releases`: flatten the entries' id lists, then look up each id and
   * create a new, not chosen release for each usable record.
   */
  method GetSeadexReleases(response: CollectionResponse, lookup: string -> DetailResponse)
    returns (torrents: seq<Trs>)
    ensures |torrents| == |SeadexReleases(response, lookup)|
    ensures forall i :: 0 <= i < |torrents| ==>
      Describes(torrents[i], SeadexReleases(response, lookup)[i]) && !torrents[i].chosen && fresh(torrents[i])
  {
    if response.CollectionRequestFailed? {
      return [];
    }
    var entries := response.entries;
    if entries == [] {
      return [];
    }
    var trsIds := CollectTrsIds(entries);
    if trsIds == [] {
      return [];
    }
    torrents := CreateReleases(trsIds, lookup);
  }

  /** The id-collecting loop of `get_seadex_releases`. */
  method CollectTrsIds(entries: seq<CollectionEntry>) returns (trsIds: seq<string>)
    ensures trsIds == TrsIds(entries)
  {
    trsIds := [];
    var i := 0;
    while i < |entries|
      invariant 0 <= i <= |entries|
      invariant trsIds == TrsIds(entries[..i])
    {
      assert entries[..i + 1][..i] == entries[..i];
      trsIds := trsIds + entries[i].trs.GetOr([]);
      i := i + 1;
    }
    assert entries[..i] == entries;
  }

  /** The lookup loop of `get_seadex_releases`: one new release per usable detail record. */
  method CreateReleases(trsIds: seq<string>, lookup: string -> DetailResponse) returns (torrents: seq<Trs>)
    ensures |torrents| == |Releases(trsIds, lookup)|
    ensures forall i :: 0 <= i < |torrents| ==>
      Describes(torrents[i], Releases(trsIds, lookup)[i]) && !torrents[i].chosen && fresh(torrents[i])
  {
    torrents := [];
    var j := 0;
    while j < |trsIds|
      invariant 0 <= j <= |trsIds|
      invariant |torrents| == |Releases(trsIds[..j], lookup)|
      invariant forall k :: 0 <= k < |torrents| ==>
        Describes(torrents[k], Releases(trsIds[..j], lookup)[k]) && !torrents[k].chosen && fresh(torrents[k])
    {
      var id := trsIds[j];
      assert Releases(trsIds[..j + 1], lookup) == Releases(trsIds[..j], lookup) + ReleaseList(id, lookup) by {
        assert trsIds[..j + 1][..j] == trsIds[..j];
      }
      var info := TorrentInfo(lookup(id));
      if info.Some? {
        var d := info.value;
        var infoHash := d.infoHash.GetOr("");
        var tracker := d.tracker.GetOr("");
        var url := d.url.GetOr("");
        var isBest := d.isBest.GetOr(false);
        var dualAudio := d.dualAudio.GetOr(false);
        if infoHash == "" || url == "" {
          j := j + 1;
          continue;
        }
        var private := infoHash == Redacted;
        var t := new Trs(id, infoHash, tracker, url, isBest, dualAudio, private, false);
        torrents := torrents + [t];
      }
      j := j + 1;
    }
    assert trsIds[..j] == trsIds;
  }

  lemma {:induction false} TrsIdsConcat(a: seq<CollectionEntry>, b: seq<CollectionEntry>)
    ensures TrsIds(a + b) == TrsIds(a) + TrsIds(b)
  {
    if b != [] {
      var init := b[..|b| - 1];
      TrsIdsConcat(a, init);
      assert (a + b)[..|a + b| - 1] == a + init;
    } else {
      assert a + b == a;
    }
  }

  /** An id is collected iff some entry lists it. */
  lemma {:induction false} TrsIdsMembers(entries: seq<CollectionEntry>, id: string)
    ensures id in TrsIds(entries) <==> exists e :: e in entries && e.trs.Some? && id in e.trs.value
  {
    if entries != [] {
      var init := entries[..|entries| - 1];
      var last := entries[|entries| - 1];
      TrsIdsMembers(init, id);
      assert entries == init + [last];
      if exists e :: e in entries && e.trs.Some? && id in e.trs.value {
        var e :| e in entries && e.trs.Some? && id in e.trs.value;
        if e != last {
          assert e in init;
        }
      }
    }
  }

  lemma {:induction false} ReleasesConcat(a: seq<string>, b: seq<string>, lookup: string -> DetailResponse)
    ensures Releases(a + b, lookup) == Releases(a, lookup) + Releases(b, lookup)
  {
    if b != [] {
      var init := b[..|b| - 1];
      ReleasesConcat(a, init, lookup);
      assert (a + b)[..|a + b| - 1] == a + init;
    } else {
      assert a + b == a;
    }
  }

  /**
   * Every release has a content hash and a URL, is private exactly when its hash is
   * redacted, and comes from one of the ids; every id whose first detail record has
   * a hash and a URL gives a release.
   */
  lemma {:induction false} ReleasesProperties(ids: seq<string>, lookup: string -> DetailResponse)
    ensures |Releases(ids, lookup)| <= |ids|
    ensures forall i :: 0 <= i < |Releases(ids, lookup)| ==>
      var f := Releases(ids, lookup)[i];
      f.infoHash != "" && f.url != "" && (f.private <==> f.infoHash == Redacted) && f.id in ids &&
      ReleaseOf(f.id, lookup) == Some(f)
    ensures forall id :: id in ids && ReleaseOf(id, lookup).Some? ==> ReleaseOf(id, lookup).value in Releases(ids, lookup)
  {
    if ids != [] {
      var init := ids[..|ids| - 1];
      var last := ids[|ids| - 1];
      ReleasesProperties(init, lookup);
      assert ids == init + [last];
      forall id | id in ids && ReleaseOf(id, lookup).Some? ensures ReleaseOf(id, lookup).value in Releases(ids, lookup) {
        if id != last {
          assert id in init;
        }
      }
    }
  }
}

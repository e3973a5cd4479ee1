/**
 * The series reconciler: a three-way merge of the locally known series against
 * the series the media manager currently monitors, keyed by the media
 * manager's id.
 */
module SeriesSync {
  import opened Records
  import opened PyDict

  /** The ids of a list of series. */
  function Ids(xs: seq<Series>): set<int> {
    KeySet(xs, SeriesId)
  }

  /**
   * The merged catalog: the known series that are still monitored, unmodified and
   * in known order, then the monitored series with a new id, in observed order.
   * Both inputs are first turned into dicts by id.
   */
  function Synced(known: seq<Series>, observed: seq<Series>): seq<Series> {
    var knownDict := FromList(known, SeriesId);
    var observedDict := FromList(observed, SeriesId);
    WithKeyIn(knownDict, SeriesId, Ids(observedDict)) + WithKeyNotIn(observedDict, SeriesId, Ids(knownDict))
  }

  /** `sync_sonarr_series`: the two append loops over the dicts. */
  method SyncSonarrSeries(known: seq<Series>, observed: seq<Series>) returns (synced: seq<Series>)
    ensures synced == Synced(known, observed)
    ensures Ids(synced) == Ids(observed)
  {
    var knownDict := FromList(known, SeriesId);
    var observedDict := FromList(observed, SeriesId);
    var knownIds := Ids(knownDict);
    var observedIds := Ids(observedDict);
    synced := [];

    // 1. keep the known series that are still monitored
    var i := 0;
    while i < |knownDict|
      invariant 0 <= i <= |knownDict|
      invariant synced == WithKeyIn(knownDict[..i], SeriesId, observedIds)
    {
      WithKeyInStep(knownDict, i, SeriesId, observedIds);
      if knownDict[i].sonarrId in observedIds {
        synced := synced + [knownDict[i]];
      }
      i := i + 1;
    }
    assert knownDict[..i] == knownDict;
    ghost var kept := synced;

    // 2. add the monitored series that are new
    var j := 0;
    var added := [];
    while j < |observedDict|
      invariant 0 <= j <= |observedDict|
      invariant added == WithKeyNotIn(observedDict[..j], SeriesId, knownIds)
      invariant synced == kept + added
    {
      WithKeyNotInStep(observedDict, j, SeriesId, knownIds);
      if observedDict[j].sonarrId !in knownIds {
        synced := synced + [observedDict[j]];
        added := added + [observedDict[j]];
      }
      j := j + 1;
    }
    assert observedDict[..j] == observedDict;
    assert added == WithKeyNotIn(observedDict, SeriesId, knownIds);
    assert kept == WithKeyIn(knownDict, SeriesId, observedIds);
    assert synced == WithKeyIn(knownDict, SeriesId, observedIds) + WithKeyNotIn(observedDict, SeriesId, knownIds);
    SyncedIds(known, observed);
  }

  /** The merged catalog holds exactly the monitored ids, each once. */
  lemma SyncedIds(known: seq<Series>, observed: seq<Series>)
    ensures Ids(Synced(known, observed)) == Ids(observed)
    ensures UniqueKeys(Synced(known, observed), SeriesId)
  {
    var knownDict := FromList(known, SeriesId);
    var observedDict := FromList(observed, SeriesId);
    var kept := WithKeyIn(knownDict, SeriesId, Ids(observedDict));
    var added := WithKeyNotIn(observedDict, SeriesId, Ids(knownDict));
    FromListKeys(known, SeriesId);
    FromListKeys(observed, SeriesId);
    WithKeyInProperties(knownDict, SeriesId, Ids(observedDict));
    WithKeyNotInProperties(observedDict, SeriesId, Ids(knownDict));
    KeySetConcat(kept, added, SeriesId);
    UniqueConcat(kept, added, SeriesId);
  }

  /**
   * Each merged series is a known series that is still monitored or a monitored
   * series with a new id; every still-monitored known series (as the dict holds it)
   * and every monitored series with a new id is in the result.
   */
  lemma SyncedMembers(known: seq<Series>, observed: seq<Series>)
    ensures forall s :: s in Synced(known, observed) <==>
      (s in FromList(known, SeriesId) && s.sonarrId in Ids(observed)) ||
      (s in FromList(observed, SeriesId) && s.sonarrId !in Ids(known))
  {
    var knownDict := FromList(known, SeriesId);
    var observedDict := FromList(observed, SeriesId);
    FromListKeys(known, SeriesId);
    FromListKeys(observed, SeriesId);
    forall s ensures s in Synced(known, observed) <==>
      (s in knownDict && s.sonarrId in Ids(observed)) || (s in observedDict && s.sonarrId !in Ids(known))
    {
      WithKeyInMember(knownDict, SeriesId, Ids(observedDict), s);
      WithKeyNotInMember(observedDict, SeriesId, Ids(knownDict), s);
    }
  }

  /** With duplicate-free inputs the dicts change nothing: kept known series in known order, then new ones in observed order. */
  lemma SyncedUnique(known: seq<Series>, observed: seq<Series>)
    requires UniqueKeys(known, SeriesId) && UniqueKeys(observed, SeriesId)
    ensures Synced(known, observed)
         == WithKeyIn(known, SeriesId, Ids(observed)) + WithKeyNotIn(observed, SeriesId, Ids(known))
  {
    FromListUnique(known, SeriesId);
    FromListUnique(observed, SeriesId);
  }

  /** Syncing the merged catalog again against the same monitored list changes nothing. */
  lemma SyncIdempotent(known: seq<Series>, observed: seq<Series>)
    ensures Synced(Synced(known, observed), observed) == Synced(known, observed)
  {
    var r := Synced(known, observed);
    SyncedIds(known, observed);
    FromListUnique(r, SeriesId);
    var observedDict := FromList(observed, SeriesId);
    FromListKeys(observed, SeriesId);
    WithKeyInAll(r, SeriesId, Ids(observedDict));
    WithKeyNotInNone(observedDict, SeriesId, Ids(r));
    assert r + [] == r;
  }
}

/**
 * The metadata-entry reconciler: merges the entries known for one series with
 * the entries a fresh metadata search found, keyed by the metadata id. Entries
 * the user added by hand or marked as ignored survive a search that no longer
 * returns them. The result is kept in release-year order.
 */
module AniListMerge {
  import opened Records
  import opened PyDict
  import opened SeasonSort

  function Ids(xs: seq<AniListSeries>): set<int> {
    KeySet(xs, EntryId)
  }

  /** The override flags that protect an entry from removal. */
  predicate Protected(e: AniListSeries) {
    e.manuallyAdded || e.ignore
  }

  /** The known entries that stay: found again, or protected. */
  function KeptEntries(known: seq<AniListSeries>, foundIds: set<int>): seq<AniListSeries> {
    if known == [] then []
    else
      var e := known[|known| - 1];
      KeptEntries(known[..|known| - 1], foundIds) + (if e.anilistId in foundIds || Protected(e) then [e] else [])
  }

  lemma {:induction false} KeptEntriesProperties(known: seq<AniListSeries>, foundIds: set<int>)
    ensures forall e :: e in KeptEntries(known, foundIds) <==> e in known && (e.anilistId in foundIds || Protected(e))
    ensures KeySet(KeptEntries(known, foundIds), EntryId) <= KeySet(known, EntryId)
    ensures UniqueKeys(known, EntryId) ==> UniqueKeys(KeptEntries(known, foundIds), EntryId)
  {
    if known != [] {
      var last := |known| - 1;
      var e := known[last];
      assert known == known[..last] + [e];
      var init := KeptEntries(known[..last], foundIds);
      var tail := if e.anilistId in foundIds || Protected(e) then [e] else [];
      KeptEntriesProperties(known[..last], foundIds);
      var r := KeptEntries(known, foundIds);
      assert r == init + tail;
      assert KeySet(r, EntryId) <= KeySet(known, EntryId) by {
        assert KeySet([e], EntryId) == {e.anilistId} by {
          assert [e][1..] == [];
        }
        assert KeySet(tail, EntryId) <= {e.anilistId};
        KeySetConcat(known[..last], [e], EntryId);
        KeySetConcat(init, tail, EntryId);
      }
      if UniqueKeys(known, EntryId) {
        UniqueInit(known, EntryId);
        if tail != [] {
          UniqueSnoc(init, e, EntryId);
        }
      }
    }
  }

  /** With every entry found again or protected, nothing is dropped. */
  lemma {:induction false} KeptEntriesAll(known: seq<AniListSeries>, foundIds: set<int>)
    requires forall i :: 0 <= i < |known| ==> known[i].anilistId in foundIds || Protected(known[i])
    ensures KeptEntries(known, foundIds) == known
  {
    if known != [] {
      var last := |known| - 1;
      KeptEntriesAll(known[..last], foundIds);
      assert known == known[..last] + [known[last]];
    }
  }

  /** The merge before sorting: kept known entries in known order, then new found entries in found order. */
  function Unsorted(known: seq<AniListSeries>, found: seq<AniListSeries>): seq<AniListSeries> {
    var knownDict := FromList(known, EntryId);
    var foundDict := FromList(found, EntryId);
    KeptEntries(knownDict, Ids(foundDict)) + WithKeyNotIn(foundDict, EntryId, Ids(knownDict))
  }

  /** The merged entry list of `merge_anilist_ids`. */
  function Merged(known: seq<AniListSeries>, found: seq<AniListSeries>): seq<AniListSeries> {
    SortByYear(Unsorted(known, found))
  }

  /** `merge_anilist_ids`: two append loops over the dicts, then an in-place stable sort by year. */
  method MergeAniListIds(known: seq<AniListSeries>, found: seq<AniListSeries>) returns (merged: seq<AniListSeries>)
    ensures merged == Merged(known, found)
    ensures SortedByYear(merged)
    ensures forall y :: InYear(merged, y) == InYear(Unsorted(known, found), y)
  {
    var knownDict := FromList(known, EntryId);
    var foundDict := FromList(found, EntryId);
    var knownIds := Ids(knownDict);
    var foundIds := Ids(foundDict);
    merged := [];

    // 1. keep the known entries that are found again, or protected by an override flag
    var i := 0;
    while i < |knownDict|
      invariant 0 <= i <= |knownDict|
      invariant merged == KeptEntries(knownDict[..i], foundIds)
    {
      assert knownDict[..i + 1][..i] == knownDict[..i];
      var e := knownDict[i];
      if e.anilistId in foundIds {
        merged := merged + [e];
      } else if e.manuallyAdded || e.ignore {
        merged := merged + [e];
      }
      i := i + 1;
    }
    assert knownDict[..i] == knownDict;
    ghost var kept := merged;

    // 2. add the found entries that are new
    var j := 0;
    ghost var added := [];
    while j < |foundDict|
      invariant 0 <= j <= |foundDict|
      invariant added == WithKeyNotIn(foundDict[..j], EntryId, knownIds)
      invariant merged == kept + added
    {
      WithKeyNotInStep(foundDict, j, EntryId, knownIds);
      if foundDict[j].anilistId !in knownIds {
        merged := merged + [foundDict[j]];
        added := added + [foundDict[j]];
      }
      j := j + 1;
    }
    assert foundDict[..j] == foundDict;
    assert added == WithKeyNotIn(foundDict, EntryId, knownIds);
    assert merged == KeptEntries(knownDict, foundIds) + WithKeyNotIn(foundDict, EntryId, knownIds);

    // 3. sort by season year
    merged := SortByYear(merged);
  }

  /** The dicts' key sets are those of the lists. */
  lemma DictIds(known: seq<AniListSeries>, found: seq<AniListSeries>)
    ensures Ids(FromList(known, EntryId)) == Ids(known) && UniqueKeys(FromList(known, EntryId), EntryId)
    ensures Ids(FromList(found, EntryId)) == Ids(found) && UniqueKeys(FromList(found, EntryId), EntryId)
  {
    FromListKeys(known, EntryId);
    FromListKeys(found, EntryId);
  }

  /**
   * A merged entry is a known entry (as the dict holds it) that was found again or is
   * protected, or a found entry with a new id; each such entry is in the result.
   */
  lemma MergedMember(known: seq<AniListSeries>, found: seq<AniListSeries>, e: AniListSeries)
    ensures e in Merged(known, found) <==>
      (e in FromList(known, EntryId) && (e.anilistId in Ids(found) || Protected(e))) ||
      (e in FromList(found, EntryId) && e.anilistId !in Ids(known))
  {
    var knownDict := FromList(known, EntryId);
    var foundDict := FromList(found, EntryId);
    var kept := KeptEntries(knownDict, Ids(foundDict));
    var added := WithKeyNotIn(foundDict, EntryId, Ids(knownDict));
    DictIds(known, found);
    KeptEntriesProperties(knownDict, Ids(foundDict));
    WithKeyNotInProperties(foundDict, EntryId, Ids(knownDict));
    assert e in added <==> e in foundDict && e.anilistId !in Ids(known) by {
      if e in foundDict && e.anilistId !in Ids(known) {
        var i :| 0 <= i < |foundDict| && foundDict[i] == e;
      }
      if e in added {
        var i :| 0 <= i < |added| && added[i] == e;
      }
    }
    assert Unsorted(known, found) == kept + added;
    SortMembers(kept + added, e);
  }

  lemma UnsortedIds(known: seq<AniListSeries>, found: seq<AniListSeries>)
    ensures Ids(found) <= Ids(Unsorted(known, found)) <= Ids(known) + Ids(found)
    ensures UniqueKeys(Unsorted(known, found), EntryId)
  {
    var knownDict := FromList(known, EntryId);
    var foundDict := FromList(found, EntryId);
    var kept := KeptEntries(knownDict, Ids(foundDict));
    var added := WithKeyNotIn(foundDict, EntryId, Ids(knownDict));
    DictIds(known, found);
    KeptEntriesProperties(knownDict, Ids(foundDict));
    WithKeyNotInProperties(foundDict, EntryId, Ids(knownDict));
    KeySetConcat(kept, added, EntryId);
    UniqueConcat(kept, added, EntryId);
    forall k | k in Ids(found) && k !in Ids(added) ensures k in Ids(kept) {
      KeySetMember(knownDict, EntryId, k);
      var i :| 0 <= i < |knownDict| && knownDict[i].anilistId == k;
      assert knownDict[i] in kept;
      KeySetMember(kept, EntryId, k);
      var j :| 0 <= j < |kept| && kept[j] == knownDict[i];
    }
  }

  /** Every found id is in the merge, every merged id was known or found, and no id appears twice. */
  lemma MergedIds(known: seq<AniListSeries>, found: seq<AniListSeries>)
    ensures Ids(found) <= Ids(Merged(known, found)) <= Ids(known) + Ids(found)
    ensures UniqueKeys(Merged(known, found), EntryId)
  {
    UnsortedIds(known, found);
    SortKeys(Unsorted(known, found));
  }

  /** An entry that was neither found again nor protected is gone; a protected known entry stays. */
  lemma MergeOverrideProtection(known: seq<AniListSeries>, found: seq<AniListSeries>, e: AniListSeries)
    requires e in FromList(known, EntryId)
    ensures e in Merged(known, found) <==> e.anilistId in Ids(found) || Protected(e)
  {
    MergedMember(known, found, e);
    FromListKeys(known, EntryId);
    if e in FromList(found, EntryId) && e.anilistId !in Ids(known) {
      var i :| 0 <= i < |FromList(known, EntryId)| && FromList(known, EntryId)[i] == e;
      KeySetMember(FromList(known, EntryId), EntryId, e.anilistId);
      assert false;
    }
  }

  /** Merging the merged list again with the same search result changes nothing. */
  lemma MergeIdempotent(known: seq<AniListSeries>, found: seq<AniListSeries>)
    ensures Merged(Merged(known, found), found) == Merged(known, found)
  {
    var m := Merged(known, found);
    var foundDict := FromList(found, EntryId);
    MergedIds(known, found);
    FromListUnique(m, EntryId);
    DictIds(known, found);
    forall i | 0 <= i < |m| ensures m[i].anilistId in Ids(foundDict) || Protected(m[i]) {
      MergedMember(known, found, m[i]);
      if m[i] in foundDict {
        var j :| 0 <= j < |foundDict| && foundDict[j] == m[i];
        KeySetMember(foundDict, EntryId, m[i].anilistId);
      }
    }
    KeptEntriesAll(m, Ids(foundDict));
    WithKeyNotInNone(foundDict, EntryId, Ids(m));
    assert Unsorted(m, found) == m;
    SortSorted(m);
  }
}

/**
 * The release reconciler and selector: merges the releases known for one
 * metadata entry with the releases the index returns now, then picks the
 * best-scoring candidate for download. It updates the `chosen` flag of the
 * caller's release objects in place.
 */
module TorrentSelection {
  import opened Wrappers
  import opened Records
  import opened PyDict
  import opened Scoring

  function Ids(ts: seq<Trs>): set<string> {
    KeySet(ts, TrsId)
  }

  /**
   * The ids of the releases in `ts` whose `chosen` flag is set: for the known dict
   * at the start of a pass, the ids the pass remembers as originally chosen.
   */
  function ChosenIds(ts: seq<Trs>): set<string>
    reads ts
  {
    if ts == [] then {}
    else
      var t := ts[|ts| - 1];
      ChosenIds(ts[..|ts| - 1]) + (if t.chosen then {t.id} else {})
  }

  lemma {:induction false} ChosenIdsProperties(ts: seq<Trs>)
    ensures ChosenIds(ts) <= Ids(ts)
    ensures forall i :: 0 <= i < |ts| && ts[i].chosen ==> ts[i].id in ChosenIds(ts)
    ensures UniqueKeys(ts, TrsId) ==> forall i :: 0 <= i < |ts| ==> (ts[i].id in ChosenIds(ts) <==> ts[i].chosen)
  {
    if ts != [] {
      var last := |ts| - 1;
      ChosenIdsProperties(ts[..last]);
      assert ts == ts[..last] + [ts[last]];
      KeySetConcat(ts[..last], [ts[last]], TrsId);
      if UniqueKeys(ts, TrsId) {
        UniqueInit(ts, TrsId);
        forall i | 0 <= i < last ensures ts[i].id != ts[last].id {
          assert ts[..last][i] == ts[i];
          KeySetMember(ts[..last], TrsId, ts[i].id);
        }
      }
    }
  }

  /** The ids chosen when the pass starts, as the known dict holds them. */
  function OriginallyChosen(known: seq<Trs>): set<string>
    reads FromList(known, TrsId)
  {
    ChosenIds(FromList(known, TrsId))
  }

  /** The releases that are not from an access-restricted tracker. */
  function PublicTorrents(ts: seq<Trs>): seq<Trs> {
    if ts == [] then []
    else
      var t := ts[|ts| - 1];
      PublicTorrents(ts[..|ts| - 1]) + (if !t.private then [t] else [])
  }

  /** The known releases that stay, in known order: found again, or originally chosen. */
  function KeptTorrents(known: seq<Trs>, found: seq<Trs>, chosenIds: set<string>): seq<Trs> {
    WithKeyIn(FromList(known, TrsId), TrsId, Ids(FromList(found, TrsId)) + chosenIds)
  }

  /** The found releases whose id is not known, in found order (private ones included). */
  function NewTorrents(known: seq<Trs>, found: seq<Trs>): seq<Trs> {
    WithKeyNotIn(FromList(found, TrsId), TrsId, Ids(FromList(known, TrsId)))
  }

  /** The merged release list: kept known releases, then the new found ones. */
  function MergedTorrents(known: seq<Trs>, found: seq<Trs>, chosenIds: set<string>): seq<Trs> {
    KeptTorrents(known, found, chosenIds) + NewTorrents(known, found)
  }

  /** The candidates for best: originally chosen known releases, then new non-private found releases. */
  function Candidates(known: seq<Trs>, found: seq<Trs>, chosenIds: set<string>): seq<Trs> {
    WithKeyIn(FromList(known, TrsId), TrsId, chosenIds) + PublicTorrents(NewTorrents(known, found))
  }

  /** The index of the first candidate among `cs[..n]` with the highest score. */
  function FirstMaxUpTo(cs: seq<Trs>, n: nat, w: Weights): (i: nat)
    requires 0 < n <= |cs|
    ensures i < n
    ensures forall j :: 0 <= j < n ==> Score(cs[j], w) <= Score(cs[i], w)
    ensures forall j :: 0 <= j < i ==> Score(cs[j], w) < Score(cs[i], w)
  {
    if n == 1 then 0
    else
      var i := FirstMaxUpTo(cs, n - 1, w);
      if Score(cs[n - 1], w) > Score(cs[i], w) then n - 1 else i
  }

  /** Python's `max(candidates, key=score)`: the first candidate with the highest score. */
  function FirstMax(cs: seq<Trs>, w: Weights): (i: nat)
    requires cs != []
    ensures i < |cs|
    ensures forall j :: 0 <= j < |cs| ==> Score(cs[j], w) <= Score(cs[i], w)
    ensures forall j :: 0 <= j < i ==> Score(cs[j], w) < Score(cs[i], w)
  {
    FirstMaxUpTo(cs, |cs|, w)
  }

  /** The first candidate with the highest score, if there are candidates. */
  function Top(known: seq<Trs>, found: seq<Trs>, chosenIds: set<string>, w: Weights): Option<Trs> {
    var cs := Candidates(known, found, chosenIds);
    if cs == [] then None else Some(cs[FirstMax(cs, w)])
  }

  /** The release the pass newly selects for download: the top candidate unless it was chosen already. */
  function Selected(known: seq<Trs>, found: seq<Trs>, chosenIds: set<string>, w: Weights): Option<Trs> {
    match Top(known, found, chosenIds, w)
    case None => None
    case Some(best) => if best.id in chosenIds then None else Some(best)
  }

  lemma {:induction false} PublicTorrentsMembers(ts: seq<Trs>)
    ensures forall t :: t in PublicTorrents(ts) <==> t in ts && !t.private
  {
    if ts != [] {
      var last := |ts| - 1;
      PublicTorrentsMembers(ts[..last]);
      assert ts == ts[..last] + [ts[last]];
    }
  }

  lemma PublicTorrentsSnoc(ts: seq<Trs>, t: Trs)
    ensures PublicTorrents(ts + [t]) == PublicTorrents(ts) + (if !t.private then [t] else [])
  {
    assert (ts + [t])[..|ts|] == ts;
  }

  lemma NewTorrentsIds(known: seq<Trs>, found: seq<Trs>)
    ensures Ids(NewTorrents(known, found)) == Ids(found) - Ids(known)
    ensures UniqueKeys(NewTorrents(known, found), TrsId)
  {
    FromListKeys(known, TrsId);
    FromListKeys(found, TrsId);
    WithKeyNotInProperties(FromList(found, TrsId), TrsId, Ids(FromList(known, TrsId)));
  }

  lemma NewTorrentsMembers(known: seq<Trs>, found: seq<Trs>, t: Trs)
    ensures t in NewTorrents(known, found) <==> t in FromList(found, TrsId) && t.id !in Ids(known)
    ensures t in NewTorrents(known, found) ==> t in found
  {
    var foundDict := FromList(found, TrsId);
    var knownIds := Ids(FromList(known, TrsId));
    var newOnes := WithKeyNotIn(foundDict, TrsId, knownIds);
    FromListKeys(known, TrsId);
    FromListKeys(found, TrsId);
    WithKeyNotInProperties(foundDict, TrsId, knownIds);
    if t in foundDict && t.id !in knownIds {
      var i :| 0 <= i < |foundDict| && foundDict[i] == t;
    }
    if t in newOnes {
      var i :| 0 <= i < |newOnes| && newOnes[i] == t;
      assert t in foundDict;
    }
  }

  lemma KeptTorrentsMembers(known: seq<Trs>, found: seq<Trs>, chosenIds: set<string>, t: Trs)
    ensures t in KeptTorrents(known, found, chosenIds) <==>
      t in FromList(known, TrsId) && (t.id in Ids(found) || t.id in chosenIds)
    ensures t in KeptTorrents(known, found, chosenIds) ==> t in known
  {
    var knownDict := FromList(known, TrsId);
    var ks := Ids(FromList(found, TrsId)) + chosenIds;
    var kept := WithKeyIn(knownDict, TrsId, ks);
    FromListKeys(known, TrsId);
    FromListKeys(found, TrsId);
    WithKeyInProperties(knownDict, TrsId, ks);
    if t in knownDict && t.id in ks {
      var i :| 0 <= i < |knownDict| && knownDict[i] == t;
    }
    if t in kept {
      var i :| 0 <= i < |kept| && kept[i] == t;
      assert t in knownDict;
    }
  }

  /** Kept releases carry known ids, new releases do not: the two parts of the merge are disjoint. */
  lemma KeptNotNew(known: seq<Trs>, found: seq<Trs>, chosenIds: set<string>, t: Trs)
    ensures t in KeptTorrents(known, found, chosenIds) ==> t.id in Ids(known) && t !in NewTorrents(known, found)
    ensures t in NewTorrents(known, found) ==> t !in FromList(known, TrsId)
  {
    KeptTorrentsMembers(known, found, chosenIds, t);
    NewTorrentsMembers(known, found, t);
    FromListKeys(known, TrsId);
    KeySetMember(FromList(known, TrsId), TrsId, t.id);
  }

  /**
   * A merged release is a known release (as the dict holds it) that is found again
   * or was chosen, or a found release with an id that is not known.
   */
  lemma MergedMembers(known: seq<Trs>, found: seq<Trs>, chosenIds: set<string>, t: Trs)
    ensures t in MergedTorrents(known, found, chosenIds) <==>
      (t in FromList(known, TrsId) && (t.id in Ids(found) || t.id in chosenIds)) ||
      (t in FromList(found, TrsId) && t.id !in Ids(known))
    ensures t in MergedTorrents(known, found, chosenIds) ==> t in known || t in found
  {
    KeptTorrentsMembers(known, found, chosenIds, t);
    NewTorrentsMembers(known, found, t);
  }

  /**
   * Only a new, non-private release can be selected; it scores at least as high as
   * every candidate and strictly higher than every candidate before it.
   */
  lemma SelectedIsNewPublic(known: seq<Trs>, found: seq<Trs>, chosenIds: set<string>, w: Weights)
    ensures Selected(known, found, chosenIds, w).Some? ==>
      var t := Selected(known, found, chosenIds, w).value;
      t in NewTorrents(known, found) && !t.private && t.id !in chosenIds &&
      t.id in Ids(found) - Ids(known) &&
      forall c :: c in Candidates(known, found, chosenIds) ==> Score(c, w) <= Score(t, w)
  {
    var cs := Candidates(known, found, chosenIds);
    var chosenKnown := WithKeyIn(FromList(known, TrsId), TrsId, chosenIds);
    var newOnes := NewTorrents(known, found);
    if cs != [] {
      var k := FirstMax(cs, w);
      var t := cs[k];
      if t.id !in chosenIds {
        WithKeyInProperties(FromList(known, TrsId), TrsId, chosenIds);
        if k < |chosenKnown| {
          assert false;
        }
        assert t == PublicTorrents(newOnes)[k - |chosenKnown|];
        PublicTorrentsMembers(newOnes);
        NewTorrentsMembers(known, found, t);
        NewTorrentsIds(known, found);
        KeySetMember(newOnes, TrsId, t.id);
        forall c | c in cs ensures Score(c, w) <= Score(t, w) {
          var j :| 0 <= j < |cs| && cs[j] == c;
        }
      }
    }
  }

  /**
   * The candidates are exactly the originally chosen known releases (private or not)
   * and the new found releases that are not private.
   */
  lemma CandidatesMembers(known: seq<Trs>, found: seq<Trs>, chosenIds: set<string>, t: Trs)
    ensures t in Candidates(known, found, chosenIds) <==>
      (t in FromList(known, TrsId) && t.id in chosenIds) || (t in NewTorrents(known, found) && !t.private)
  {
    var knownDict := FromList(known, TrsId);
    var chosenKnown := WithKeyIn(knownDict, TrsId, chosenIds);
    WithKeyInProperties(knownDict, TrsId, chosenIds);
    PublicTorrentsMembers(NewTorrents(known, found));
    if t in knownDict && t.id in chosenIds {
      var i :| 0 <= i < |knownDict| && knownDict[i] == t;
    }
    if t in chosenKnown {
      var i :| 0 <= i < |chosenKnown| && chosenKnown[i] == t;
    }
  }

  /** The merge holds every found id and the known ids originally chosen, each once. */
  lemma MergedIds(known: seq<Trs>, found: seq<Trs>, chosenIds: set<string>)
    ensures Ids(MergedTorrents(known, found, chosenIds)) == Ids(found) + Ids(known) * chosenIds
    ensures UniqueKeys(MergedTorrents(known, found, chosenIds), TrsId)
  {
    var knownDict := FromList(known, TrsId);
    var foundIds := Ids(FromList(found, TrsId));
    var kept := KeptTorrents(known, found, chosenIds);
    var added := NewTorrents(known, found);
    FromListKeys(known, TrsId);
    FromListKeys(found, TrsId);
    WithKeyInProperties(knownDict, TrsId, foundIds + chosenIds);
    NewTorrentsIds(known, found);
    KeySetConcat(kept, added, TrsId);
    UniqueConcat(kept, added, TrsId);
  }

  /**
   * A new release is selected only when it scores strictly higher than every
   * originally chosen known release.
   */
  lemma SelectedBeatsChosen(known: seq<Trs>, found: seq<Trs>, chosenIds: set<string>, w: Weights)
    ensures Selected(known, found, chosenIds, w).Some? ==>
      forall t :: t in FromList(known, TrsId) && t.id in chosenIds ==>
        Score(t, w) < Score(Selected(known, found, chosenIds, w).value, w)
  {
    var cs := Candidates(known, found, chosenIds);
    var chosenKnown := WithKeyIn(FromList(known, TrsId), TrsId, chosenIds);
    if cs != [] {
      var k := FirstMax(cs, w);
      if cs[k].id !in chosenIds {
        WithKeyInProperties(FromList(known, TrsId), TrsId, chosenIds);
        if k < |chosenKnown| {
          assert false;
        }
        forall t | t in FromList(known, TrsId) && t.id in chosenIds ensures Score(t, w) < Score(cs[k], w) {
          CandidatesMembers(known, found, chosenIds, t);
          var i :| 0 <= i < |chosenKnown| && chosenKnown[i] == t;
          assert cs[i] == t;
        }
      }
    }
  }

  /**
   * No reselection: while an originally chosen known release scores at least as
   * high as every new non-private release, nothing new is selected.
   */
  lemma NoReselectionWhileUnbeaten(known: seq<Trs>, found: seq<Trs>, chosenIds: set<string>, w: Weights, t: Trs)
    requires t in FromList(known, TrsId) && t.id in chosenIds
    requires forall n :: n in NewTorrents(known, found) && !n.private ==> Score(n, w) <= Score(t, w)
    ensures Selected(known, found, chosenIds, w) == None
  {
    SelectedBeatsChosen(known, found, chosenIds, w);
    SelectedIsNewPublic(known, found, chosenIds, w);
  }

  /** How the parts of the merge relate to the inputs, as the merge phase needs it. */
  lemma MergeParts(known: seq<Trs>, found: seq<Trs>, chosenIds: set<string>)
    ensures forall t :: t in KeptTorrents(known, found, chosenIds) ==>
      t in FromList(known, TrsId) && t !in NewTorrents(known, found)
    ensures forall t :: t in NewTorrents(known, found) ==> t in found && t !in FromList(known, TrsId)
    ensures forall t :: t in FromList(known, TrsId) && t !in MergedTorrents(known, found, chosenIds) ==>
      t.id !in Ids(FromList(found, TrsId)) && t.id !in chosenIds
    ensures forall t :: t in MergedTorrents(known, found, chosenIds) ==> t in known || t in found
  {
    FromListKeys(found, TrsId);
    forall t | t in KeptTorrents(known, found, chosenIds)
      ensures t in FromList(known, TrsId) && t !in NewTorrents(known, found)
    {
      KeptTorrentsMembers(known, found, chosenIds, t);
      KeptNotNew(known, found, chosenIds, t);
    }
    forall t | t in NewTorrents(known, found) ensures t in found && t !in FromList(known, TrsId) {
      KeptNotNew(known, found, chosenIds, t);
      NewTorrentsMembers(known, found, t);
    }
    forall t | t in FromList(known, TrsId) && t !in MergedTorrents(known, found, chosenIds)
      ensures t.id !in Ids(FromList(found, TrsId)) && t.id !in chosenIds
    {
      MergedMembers(known, found, chosenIds, t);
    }
    forall t | t in MergedTorrents(known, found, chosenIds) ensures t in known || t in found {
      MergedMembers(known, found, chosenIds, t);
    }
  }

  // ---- the operation ----

  /**
   * Step 1 of `choose_best_and_merge_torrents`, over the known dict: remember and
   * collect the chosen releases, and keep (with `chosen` cleared) every release that
   * is found again or chosen. `chosenIds` names the ids whose flag is set on entry.
   */
  method ClearRetained(knownDict: seq<Trs>, foundIds: set<string>, ghost chosenIds: set<string>)
    returns (kept: seq<Trs>, chosenKnown: seq<Trs>, originalChosen: set<string>)
    requires UniqueKeys(knownDict, TrsId)
    requires forall i :: 0 <= i < |knownDict| ==> (knownDict[i].chosen <==> knownDict[i].id in chosenIds)
    modifies knownDict
    ensures kept == WithKeyIn(knownDict, TrsId, foundIds + chosenIds)
    ensures chosenKnown == WithKeyIn(knownDict, TrsId, chosenIds)
    ensures originalChosen == Ids(chosenKnown)
    ensures forall t :: t in knownDict ==> !t.chosen
  {
    kept := [];
    chosenKnown := [];
    originalChosen := {};
    var i := 0;
    while i < |knownDict|
      invariant 0 <= i <= |knownDict|
      invariant kept == WithKeyIn(knownDict[..i], TrsId, foundIds + chosenIds)
      invariant chosenKnown == WithKeyIn(knownDict[..i], TrsId, chosenIds)
      invariant originalChosen == Ids(chosenKnown)
      invariant forall j :: 0 <= j < i ==> !knownDict[j].chosen
      invariant forall j :: i <= j < |knownDict| ==> (knownDict[j].chosen <==> knownDict[j].id in chosenIds)
    {
      var t := knownDict[i];
      WithKeyInStep(knownDict, i, TrsId, foundIds + chosenIds);
      WithKeyInStep(knownDict, i, TrsId, chosenIds);
      if t.chosen {
        originalChosen := originalChosen + {t.id};
        KeySetConcat(chosenKnown, [t], TrsId);
        chosenKnown := chosenKnown + [t];
      }
      if t.id in foundIds || t.chosen {
        t.chosen := false;
        kept := kept + [t];
      }
      i := i + 1;
    }
    assert knownDict[..i] == knownDict;
  }

  /**
   * Step 2 of `choose_best_and_merge_torrents`, over the found dict: the releases
   * with an id that is not known are appended to the merge, and those that are not
   * private also to the candidates.
   */
  method AppendNew(foundDict: seq<Trs>, knownIds: set<string>) returns (added: seq<Trs>, candidates: seq<Trs>)
    ensures added == WithKeyNotIn(foundDict, TrsId, knownIds)
    ensures candidates == PublicTorrents(added)
  {
    added := [];
    candidates := [];
    var j := 0;
    while j < |foundDict|
      invariant 0 <= j <= |foundDict|
      invariant added == WithKeyNotIn(foundDict[..j], TrsId, knownIds)
      invariant candidates == PublicTorrents(added)
    {
      var t := foundDict[j];
      WithKeyNotInStep(foundDict, j, TrsId, knownIds);
      if t.id !in knownIds {
        PublicTorrentsSnoc(added, t);
        added := added + [t];
        if t.private {
          j := j + 1;
          continue;
        }
        candidates := candidates + [t];
      }
      j := j + 1;
    }
    assert foundDict[..j] == foundDict;
  }

  /**
   * Steps 1 and 2 of `choose_best_and_merge_torrents`: the merged list and the
   * candidates, with `chosen` cleared on every retained known release.
   */
  method MergePhase(known: seq<Trs>, found: seq<Trs>)
    returns (merged: seq<Trs>, candidates: seq<Trs>, originalChosen: set<string>)
    modifies known
    ensures originalChosen == old(OriginallyChosen(known))
    ensures merged == MergedTorrents(known, found, originalChosen)
    ensures candidates == Candidates(known, found, originalChosen)
    ensures forall t :: t in merged ==> t in known || t in found
    ensures forall t :: t in merged ==> t.chosen == (t in NewTorrents(known, found) && old(t.chosen))
    ensures forall t :: (t in known || t in found) && t !in merged ==> t.chosen == old(t.chosen)
  {
    var knownDict := FromList(known, TrsId);
    var foundDict := FromList(found, TrsId);
    var knownIds := Ids(knownDict);
    var foundIds := Ids(foundDict);
    ghost var chosenIds := ChosenIds(knownDict);
    assert UniqueKeys(knownDict, TrsId) && chosenIds <= knownIds &&
      (forall i :: 0 <= i < |knownDict| ==> knownDict[i] in known) &&
      forall i :: 0 <= i < |knownDict| ==> (knownDict[i].chosen <==> knownDict[i].id in chosenIds)
    by {
      FromListKeys(known, TrsId);
      ChosenIdsProperties(knownDict);
    }

    // 1. keep the known releases found again or chosen, clearing `chosen`
    var kept, chosenKnown;
    kept, chosenKnown, originalChosen := ClearRetained(knownDict, foundIds, chosenIds);
    assert originalChosen == chosenIds by {
      WithKeyInProperties(knownDict, TrsId, chosenIds);
    }

    // 2. append the found releases with a new id; the non-private ones are candidates
    var added, addedCandidates := AppendNew(foundDict, knownIds);
    merged := kept + added;
    candidates := chosenKnown + addedCandidates;

    MergeParts(known, found, chosenIds);
    forall t | t in merged ensures t.chosen == (t in added && old(t.chosen)) {
      if t in kept {
        assert t !in added;
      } else {
        assert t in found && t !in knownDict;
      }
    }
    forall t | (t in known || t in found) && t !in merged ensures t.chosen == old(t.chosen) {
      if t in knownDict {
        assert t.id !in foundIds && t.id !in chosenIds;
      }
    }
  }

  /**
   * `choose_best_and_merge_torrents`: merges the known and found releases and
   * selects the first highest-scoring candidate, marking it chosen, unless it was
   * chosen already. Every retained known release ends up not chosen; new found
   * releases keep their flag unless selected; releases dropped from the merge are
   * untouched.
   */
  method ChooseBestAndMergeTorrents(known: seq<Trs>, found: seq<Trs>, w: Weights)
    returns (best: Option<Trs>, merged: seq<Trs>)
    modifies known, found
    ensures merged == MergedTorrents(known, found, old(OriginallyChosen(known)))
    ensures best == Selected(known, found, old(OriginallyChosen(known)), w)
    ensures forall t :: t in merged ==> t in known || t in found
    ensures best.Some? ==> best.value in merged && best.value.chosen
    ensures forall t :: t in merged ==>
      t.chosen == (best == Some(t) || (t in NewTorrents(known, found) && old(t.chosen)))
    ensures forall t :: (t in known || t in found) && t !in merged ==> t.chosen == old(t.chosen)
    ensures (forall t :: t in found ==> !old(t.chosen)) ==>
      forall t :: t in merged ==> (t.chosen <==> best == Some(t))
  {
    var candidates, originalChosen;
    merged, candidates, originalChosen := MergePhase(known, found);

    // 3. the first candidate with the highest score, unless it was chosen already
    best := None;
    if candidates != [] {
      var k := FirstMax(candidates, w);
      var b := candidates[k];
      if b.id !in originalChosen {
        best := Some(b);
      }
    }
    assert best.Some? ==> best.value in NewTorrents(known, found) && best.value in found by {
      SelectedIsNewPublic(known, found, originalChosen, w);
      if best.Some? {
        NewTorrentsMembers(known, found, best.value);
      }
    }

    MergeParts(known, found, originalChosen);

    // 4. mark the selected release as chosen
    if best.Some? {
      best.value.chosen := true;
    }
  }
}

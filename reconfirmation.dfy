/**
 * Re-confirmation of an already chosen release.
 *
 * When the top candidate of a pass is a release that was chosen before the pass,
 * `choose_best_and_merge_torrents` reports no selection (nothing to download
 * again) and leaves that release's `chosen` flag cleared by the merge. On the
 * next pass the release is no longer remembered as chosen, so it is no longer a
 * candidate, and any new public release is selected even if it scores lower;
 * once the index stops listing the release, it is also dropped from the merge.
 * The source's own text says otherwise: the log message of this case
 * (main.py:195-198) reports that the best release "was already chosen" and
 * needs "no redownload", and the comment at main.py:201 describes the step as
 * setting the best release chosen and all others not chosen. Both describe the
 * re-confirmed release as the one that stays chosen.
 *
 * `TwoPassesAsWritten` shows the replacement on the selector as written;
 * `ChooseBestAndMergeTorrentsKeepingChoice` marks the top candidate chosen
 * also on re-confirmation, and `TwoPassesKeepingChoice` shows that it keeps
 * the choice.
 */
module Reconfirmation {
  import opened Wrappers
  import opened Records
  import opened PyDict
  import opened Scoring
  import opened TorrentSelection

  /** The top candidate is a release of the merged list. */
  lemma TopInMerged(known: seq<Trs>, found: seq<Trs>, chosenIds: set<string>, w: Weights)
    ensures Top(known, found, chosenIds, w).Some? ==>
      Top(known, found, chosenIds, w).value in MergedTorrents(known, found, chosenIds) &&
      Top(known, found, chosenIds, w).value in Candidates(known, found, chosenIds)
  {
    var cs := Candidates(known, found, chosenIds);
    if cs != [] {
      var t := cs[FirstMax(cs, w)];
      CandidatesMembers(known, found, chosenIds, t);
      KeptTorrentsMembers(known, found, chosenIds, t);
      FromListKeys(known, TrsId);
      KeySetMember(known, TrsId, t.id);
    }
  }

  /** The dict facts of the one- and two-release lists the passes below work on. */
  lemma SmallLists(a: Trs, b: Trs)
    requires a.id == "A" && b.id == "B"
    ensures [a][..0] == [] && [a][1..] == [] && [b][1..] == []
    ensures [a, b][..1] == [a] && [a, b][1..] == [b]
    ensures Ids([a]) == {"A"} && Ids([a, b]) == {"A", "B"}
    ensures UniqueKeys([a, b], TrsId)
    ensures ChosenIds([a]) == (if a.chosen then {"A"} else {})
    ensures ChosenIds([a, b]) == (if a.chosen then {"A"} else {}) + (if b.chosen then {"B"} else {})
  {
    assert [a][..0] == [] && [a][1..] == [] && [b][1..] == [];
    assert [a, b][..1] == [a] && [a, b][1..] == [b];
    assert KeySet([a], TrsId) == {TrsId(a)} + KeySet([a][1..], TrsId);
    assert KeySet([b], TrsId) == {TrsId(b)} + KeySet([b][1..], TrsId);
    assert KeySet([a, b], TrsId) == {TrsId(a)} + KeySet([a, b][1..], TrsId);
  }

  /**
   * The first pass over three releases with distinct ids: `a` is the one chosen
   * release and is found again with a new public release `b` that scores no higher.
   * `a` is the top candidate, nothing is selected, and `a` is not new, so the
   * selector leaves it not chosen.
   */
  lemma ReconfirmationPass(a: Trs, b: Trs, w: Weights)
    requires a.id == "A" && b.id == "B" && !b.private
    requires Score(b, w) <= Score(a, w)
    ensures Top([a], [a, b], {"A"}, w) == Some(a)
    ensures Selected([a], [a, b], {"A"}, w) == None
    ensures MergedTorrents([a], [a, b], {"A"}) == [a, b]
    ensures NewTorrents([a], [a, b]) == [b]
  {
    SmallLists(a, b);
    FromListUnique([a], TrsId);
    FromListUnique([a, b], TrsId);
    assert WithKeyNotIn([a], TrsId, {"A"}) == [];
    assert WithKeyNotIn([a, b], TrsId, {"A"}) == [b];
    assert NewTorrents([a], [a, b]) == [b];
    assert PublicTorrents([b]) == [b];
    assert WithKeyIn([a], TrsId, {"A"}) == [a];
    assert Candidates([a], [a, b], {"A"}) == [a, b];
    assert WithKeyIn([a], TrsId, {"A", "B"}) == [a];
    assert Ids(FromList([a, b], TrsId)) + {"A"} == {"A", "B"};
    assert KeptTorrents([a], [a, b], {"A"}) == [a];
  }

  /** The dict facts of the three-release list of the second pass. */
  lemma ThreeReleases(a: Trs, b: Trs, c: Trs)
    requires a.id == "A" && b.id == "B" && c.id == "C"
    ensures FromList([a, b], TrsId) == [a, b] && FromList([a, b, c], TrsId) == [a, b, c]
    ensures Ids([a, b]) == {"A", "B"}
    ensures NewTorrents([a, b], [a, b, c]) == [c]
  {
    SmallLists(a, b);
    FromListUnique([a, b], TrsId);
    assert UniqueKeys([a, b, c], TrsId);
    FromListUnique([a, b, c], TrsId);
    assert [a, b, c][..2] == [a, b];
    assert WithKeyNotIn([a], TrsId, {"A", "B"}) == [];
    assert WithKeyNotIn([a, b], TrsId, {"A", "B"}) == [];
  }

  /**
   * The second pass: the merged list `[a, b]` is known, the index lists `a`, `b`
   * and a new public release `c` that scores lower than `a`. With no release
   * remembered as chosen, `c` is selected.
   */
  lemma ReplacementPass(a: Trs, b: Trs, c: Trs, w: Weights)
    requires a.id == "A" && b.id == "B" && c.id == "C" && !c.private
    ensures Selected([a, b], [a, b, c], {}, w) == Some(c)
  {
    ThreeReleases(a, b, c);
    SmallLists(a, b);
    assert PublicTorrents([c]) == [c];
    assert WithKeyIn([a], TrsId, {}) == [];
    assert WithKeyIn([a, b], TrsId, {}) == [];
    assert Candidates([a, b], [a, b, c], {}) == [c];
  }

  /** The same second pass with `a` still remembered as chosen: `a` is on top and nothing is selected. */
  lemma KeptChoicePass(a: Trs, b: Trs, c: Trs, w: Weights)
    requires a.id == "A" && b.id == "B" && c.id == "C" && !c.private
    requires Score(c, w) < Score(a, w)
    ensures Top([a, b], [a, b, c], {"A"}, w) == Some(a)
    ensures Selected([a, b], [a, b, c], {"A"}, w) == None
  {
    ThreeReleases(a, b, c);
    SmallLists(a, b);
    assert PublicTorrents([c]) == [c];
    assert WithKeyIn([a], TrsId, {"A"}) == [a];
    assert WithKeyIn([a, b], TrsId, {"A"}) == [a];
    assert Candidates([a, b], [a, b, c], {"A"}) == [a, c];
  }

  /**
   * Two passes of the selector as written: the re-confirmed release `a` loses its
   * flag in the first pass, and the second pass selects the lower-scoring `c`.
   */
  method TwoPassesAsWritten(a: Trs, b: Trs, c: Trs, w: Weights) returns (first: Option<Trs>, second: Option<Trs>)
    requires a.id == "A" && b.id == "B" && c.id == "C" && !b.private && !c.private
    requires a.chosen && !b.chosen && !c.chosen
    requires Score(b, w) <= Score(a, w) && Score(c, w) < Score(a, w)
    modifies a, b, c
    ensures first == None && second == Some(c)
    ensures !a.chosen && c.chosen
  {
    first := FirstPassAsWritten(a, b, w);
    second := SecondPassAsWritten(a, b, c, w);
  }

  /** The first pass as written: nothing selected, and neither `a` nor `b` is chosen after it. */
  method FirstPassAsWritten(a: Trs, b: Trs, w: Weights) returns (first: Option<Trs>)
    requires a.id == "A" && b.id == "B" && !b.private
    requires a.chosen && !b.chosen
    requires Score(b, w) <= Score(a, w)
    modifies a, b
    ensures first == None
    ensures !a.chosen && !b.chosen
  {
    ReconfirmationPass(a, b, w);
    SmallLists(a, b);
    FromListUnique([a], TrsId);
    assert OriginallyChosen([a]) == {"A"};
    var merged;
    first, merged := ChooseBestAndMergeTorrents([a], [a, b], w);
  }

  /** The second pass as written, with nothing chosen: `c` is selected and marked chosen. */
  method SecondPassAsWritten(a: Trs, b: Trs, c: Trs, w: Weights) returns (second: Option<Trs>)
    requires a.id == "A" && b.id == "B" && c.id == "C" && !c.private
    requires !a.chosen && !b.chosen && !c.chosen
    requires Score(c, w) < Score(a, w)
    modifies a, b, c
    ensures second == Some(c)
    ensures !a.chosen && c.chosen
  {
    ReplacementPass(a, b, c, w);
    ThreeReleases(a, b, c);
    SmallLists(a, b);
    assert OriginallyChosen([a, b]) == {};
    var merged;
    second, merged := ChooseBestAndMergeTorrents([a, b], [a, b, c], w);
  }

  /**
   * `choose_best_and_merge_torrents` with the re-confirmation kept: as the selector
   * as written, except that the top candidate is marked chosen also when it was
   * chosen before the pass (and still not reported as a new selection).
   */
  method ChooseBestAndMergeTorrentsKeepingChoice(known: seq<Trs>, found: seq<Trs>, w: Weights)
    returns (best: Option<Trs>, merged: seq<Trs>)
    modifies known, found
    ensures merged == MergedTorrents(known, found, old(OriginallyChosen(known)))
    ensures best == Selected(known, found, old(OriginallyChosen(known)), w)
    ensures forall t :: t in merged ==> t in known || t in found
    ensures Top(known, found, old(OriginallyChosen(known)), w).Some? ==>
      Top(known, found, old(OriginallyChosen(known)), w).value in merged &&
      Top(known, found, old(OriginallyChosen(known)), w).value.chosen
    ensures forall t :: t in merged ==>
      t.chosen == (Top(known, found, old(OriginallyChosen(known)), w) == Some(t) ||
                   (t in NewTorrents(known, found) && old(t.chosen)))
    ensures forall t :: (t in known || t in found) && t !in merged ==> t.chosen == old(t.chosen)
    ensures (forall t :: t in found ==> !old(t.chosen)) ==>
      forall t :: t in merged ==> (t.chosen <==> Top(known, found, old(OriginallyChosen(known)), w) == Some(t))
  {
    var candidates, originalChosen;
    merged, candidates, originalChosen := MergePhase(known, found);

    var top := None;
    best := None;
    if candidates != [] {
      var k := FirstMax(candidates, w);
      top := Some(candidates[k]);
      if candidates[k].id !in originalChosen {
        best := top;
      }
    }
    assert top == Top(known, found, originalChosen, w);
    TopInMerged(known, found, originalChosen, w);
    MergeParts(known, found, originalChosen);

    if top.Some? {
      top.value.chosen := true;
    }
  }

  /**
   * Two passes of the corrected selector: `a` stays chosen after the first pass, so
   * the second pass selects nothing and `a` is still the chosen release.
   */
  method TwoPassesKeepingChoice(a: Trs, b: Trs, c: Trs, w: Weights) returns (first: Option<Trs>, second: Option<Trs>)
    requires a.id == "A" && b.id == "B" && c.id == "C" && !b.private && !c.private
    requires a.chosen && !b.chosen && !c.chosen
    requires Score(b, w) <= Score(a, w) && Score(c, w) < Score(a, w)
    modifies a, b, c
    ensures first == None && second == None
    ensures a.chosen && !b.chosen && !c.chosen
  {
    first := FirstPassKeepingChoice(a, b, w);
    second := SecondPassKeepingChoice(a, b, c, w);
  }

  /** The first pass of the corrected selector: nothing selected, and `a` stays chosen. */
  method FirstPassKeepingChoice(a: Trs, b: Trs, w: Weights) returns (first: Option<Trs>)
    requires a.id == "A" && b.id == "B" && !b.private
    requires a.chosen && !b.chosen
    requires Score(b, w) <= Score(a, w)
    modifies a, b
    ensures first == None
    ensures a.chosen && !b.chosen
  {
    ReconfirmationPass(a, b, w);
    SmallLists(a, b);
    FromListUnique([a], TrsId);
    assert OriginallyChosen([a]) == {"A"};
    var merged;
    first, merged := ChooseBestAndMergeTorrentsKeepingChoice([a], [a, b], w);
  }

  /** The second pass of the corrected selector: `a` is on top again, so nothing is selected. */
  method SecondPassKeepingChoice(a: Trs, b: Trs, c: Trs, w: Weights) returns (second: Option<Trs>)
    requires a.id == "A" && b.id == "B" && c.id == "C" && !c.private
    requires a.chosen && !b.chosen && !c.chosen
    requires Score(c, w) < Score(a, w)
    modifies a, b, c
    ensures second == None
    ensures a.chosen && !b.chosen && !c.chosen
  {
    KeptChoicePass(a, b, c, w);
    ThreeReleases(a, b, c);
    SmallLists(a, b);
    assert OriginallyChosen([a, b]) == {"A"};
    var merged;
    second, merged := ChooseBestAndMergeTorrentsKeepingChoice([a, b], [a, b, c], w);
  }
}

/**
 * Release scoring: a weighted integer score and the human-readable breakdown
 * that explains it. The weights are configuration, passed in explicitly.
 */
module Scoring {
  import opened Records

  /** The scoring configuration: flag weights and per-tracker weights (with an optional "default" key). */
  datatype Weights = Weights(isBest: int, dualAudio: int, trackers: map<string, int>)

  /** `trackers.get(tracker, trackers.get("default", 0))`. */
  function TrackerScore(w: Weights, tracker: string): int {
    if tracker in w.trackers then w.trackers[tracker]
    else if "default" in w.trackers then w.trackers["default"]
    else 0
  }

  /** One line item of the breakdown. */
  datatype Bonus = IsBestBonus(weight: int) | DualAudioBonus(weight: int)
                 | TrackerBonus(name: string, weight: int) | PrivateNote

  /** What a bonus adds to the score (the privacy note adds nothing). */
  function BonusValue(b: Bonus): int {
    match b
    case IsBestBonus(v) => v
    case DualAudioBonus(v) => v
    case TrackerBonus(_, v) => v
    case PrivateNote => 0
  }

  function Total(bs: seq<Bonus>): int {
    if bs == [] then 0 else BonusValue(bs[0]) + Total(bs[1..])
  }

  /** The items of the breakdown, in the order they are reported; a zero tracker score is omitted. */
  function Bonuses(t: Trs, w: Weights): seq<Bonus> {
    var ts := TrackerScore(w, t.tracker);
    (if t.isBest then [IsBestBonus(w.isBest)] else [])
    + (if t.dualAudio then [DualAudioBonus(w.dualAudio)] else [])
    + (if ts != 0 then [TrackerBonus(t.tracker, ts)] else [])
    + (if t.private then [PrivateNote] else [])
  }

  /**
   * The breakdown reports the is-best weight iff the release is flagged best, the
   * dual-audio weight iff it is flagged dual-audio, the tracker and its score iff
   * that score is not 0, and a privacy note iff the release is private.
   */
  lemma BonusesReported(t: Trs, w: Weights)
    ensures IsBestBonus(w.isBest) in Bonuses(t, w) <==> t.isBest
    ensures DualAudioBonus(w.dualAudio) in Bonuses(t, w) <==> t.dualAudio
    ensures PrivateNote in Bonuses(t, w) <==> t.private
    ensures TrackerBonus(t.tracker, TrackerScore(w, t.tracker)) in Bonuses(t, w) <==> TrackerScore(w, t.tracker) != 0
    ensures Bonuses(t, w) == [] <==> !t.isBest && !t.dualAudio && TrackerScore(w, t.tracker) == 0 && !t.private
  {
    var ts := TrackerScore(w, t.tracker);
    var a := if t.isBest then [IsBestBonus(w.isBest)] else [];
    var b := if t.dualAudio then [DualAudioBonus(w.dualAudio)] else [];
    var c := if ts != 0 then [TrackerBonus(t.tracker, ts)] else [];
    var d := if t.private then [PrivateNote] else [];
    assert Bonuses(t, w) == a + b + c + d;
    assert forall x :: x in Bonuses(t, w) <==> x in a || x in b || x in c || x in d;
  }

  lemma {:induction false} TotalConcat(a: seq<Bonus>, b: seq<Bonus>)
    ensures Total(a + b) == Total(a) + Total(b)
  {
    if a == [] {
      assert a + b == b;
    } else {
      assert (a + b)[1..] == a[1..] + b;
      TotalConcat(a[1..], b);
    }
  }

  /**
   * The score of a release: the is-best weight if flagged, the dual-audio weight if
   * flagged, and the tracker's weight (else the default weight, else 0).
   */
  function Score(t: Trs, w: Weights): int {
    (if t.isBest then w.isBest else 0) + (if t.dualAudio then w.dualAudio else 0) + TrackerScore(w, t.tracker)
  }

  /** The score is the sum of the values the breakdown reports. */
  lemma ScoreIsBreakdownTotal(t: Trs, w: Weights)
    ensures Score(t, w) == Total(Bonuses(t, w))
  {
    var ts := TrackerScore(w, t.tracker);
    var a := if t.isBest then [IsBestBonus(w.isBest)] else [];
    var b := if t.dualAudio then [DualAudioBonus(w.dualAudio)] else [];
    var c := if ts != 0 then [TrackerBonus(t.tracker, ts)] else [];
    var d := if t.private then [PrivateNote] else [];
    assert Bonuses(t, w) == a + b + c + d;
    TotalConcat(a, b);
    TotalConcat(a + b, c);
    TotalConcat(a + b + c, d);
  }

  /** Two releases that agree on the flags and the tracker score the same: privacy, hash, url and id do not count. */
  lemma ScoreDependsOnlyOnFlagsAndTracker(t: Trs, u: Trs, w: Weights)
    requires t.isBest == u.isBest && t.dualAudio == u.dualAudio && t.tracker == u.tracker
    ensures Score(t, w) == Score(u, w)
  {
  }

  // ---- Python's str(int) ----

  function DigitChar(d: int): char
    requires 0 <= d < 10
  {
    "0123456789"[d]
  }

  function DigitValue(c: char): int {
    if '0' <= c <= '9' then c as int - '0' as int else 0
  }

  predicate IsDigits(s: string) {
    forall i :: 0 <= i < |s| ==> '0' <= s[i] <= '9'
  }

  /** The decimal digits of `n`, most significant first, without leading zeros. */
  function NatToString(n: nat): (s: string)
    ensures |s| > 0 && IsDigits(s)
    ensures |s| > 1 ==> s[0] != '0'
  {
    if n < 10 then [DigitChar(n)]
    else NatToString(n / 10) + [DigitChar(n % 10)]
  }

  /** The number a string of decimal digits denotes. */
  function DigitsValue(s: string): nat {
    if s == [] then 0 else DigitsValue(s[..|s| - 1]) * 10 + DigitValue(s[|s| - 1]) as nat
  }

  lemma {:induction false} NatToStringRoundTrip(n: nat)
    ensures DigitsValue(NatToString(n)) == n
  {
    var s := NatToString(n);
    if n >= 10 {
      NatToStringRoundTrip(n / 10);
      assert s[..|s| - 1] == NatToString(n / 10);
    }
  }

  /** `str(i)`: a minus sign before the digits of a negative number. */
  function IntToString(i: int): (s: string)
    ensures |s| > 0
    ensures s[0] == '-' <==> i < 0
  {
    if i < 0 then "-" + NatToString(-i) else NatToString(i)
  }

  /** The digits after the sign denote the number's absolute value. */
  lemma IntToStringRoundTrip(i: int)
    ensures i < 0 ==> IsDigits(IntToString(i)[1..]) && DigitsValue(IntToString(i)[1..]) == -i
    ensures i >= 0 ==> IsDigits(IntToString(i)) && DigitsValue(IntToString(i)) == i
  {
    if i < 0 {
      var n: nat := -i;
      var digits := NatToString(n);
      NatToStringRoundTrip(n);
      var s := IntToString(i);
      assert s == "-" + digits;
      assert s[1..] == digits;
      assert DigitsValue(s[1..]) == n;
    } else {
      NatToStringRoundTrip(i);
    }
  }

  // ---- the breakdown string ----

  /** Python's `sep.join(parts)`. */
  function Join(parts: seq<string>, sep: string): string {
    if parts == [] then ""
    else if |parts| == 1 then parts[0]
    else parts[0] + sep + Join(parts[1..], sep)
  }

  function Render(b: Bonus): (s: string)
    ensures |s| > 0 && s[0] != 'n'
  {
    match b
    case IsBestBonus(v) => "is_best: +" + IntToString(v)
    case DualAudioBonus(v) => "dual_audio: +" + IntToString(v)
    case TrackerBonus(name, v) => "tracker(" + name + "): " + (if v >= 0 then "+" else "") + IntToString(v)
    case PrivateNote => "private"
  }

  function RenderAll(bs: seq<Bonus>): (parts: seq<string>)
    ensures |parts| == |bs|
    ensures forall i :: 0 <= i < |bs| ==> parts[i] == Render(bs[i])
  {
    if bs == [] then [] else [Render(bs[0])] + RenderAll(bs[1..])
  }

  const NoBonuses: string := "no bonuses"

  /** The log line that explains a release's score. */
  function ScoringBreakdown(t: Trs, w: Weights): string {
    var bs := Bonuses(t, w);
    if bs == [] then NoBonuses else Join(RenderAll(bs), " | ")
  }

  lemma {:induction false} JoinStartsWithFirst(parts: seq<string>, sep: string)
    requires parts != []
    ensures parts[0] <= Join(parts, sep)
  {
  }

  /**
   * The breakdown reads "no bonuses" exactly when the release is neither best nor
   * dual-audio nor private and its tracker scores 0; otherwise it starts with the
   * first reported item.
   */
  lemma BreakdownNoBonuses(t: Trs, w: Weights)
    ensures ScoringBreakdown(t, w) == NoBonuses
        <==> !t.isBest && !t.dualAudio && TrackerScore(w, t.tracker) == 0 && !t.private
    ensures Bonuses(t, w) != [] ==> Render(Bonuses(t, w)[0]) <= ScoringBreakdown(t, w)
  {
    var bs := Bonuses(t, w);
    BonusesReported(t, w);
    if bs != [] {
      var parts := RenderAll(bs);
      JoinStartsWithFirst(parts, " | ");
      assert ScoringBreakdown(t, w)[0] == parts[0][0] != 'n';
    }
  }
}

/**
 * Python's `list.sort(key=lambda e: e.season_year)`: a stable sort of metadata
 * entries by release year, given here as an insertion sort. Any stable sort
 * gives the same result (StableSortIsUnique).
 */
module SeasonSort {
  import opened Records
  import opened PyDict

  predicate SortedByYear(xs: seq<AniListSeries>) {
    forall i, j :: 0 <= i < j < |xs| ==> xs[i].seasonYear <= xs[j].seasonYear
  }

  /** The entries of `xs` from year `y`, in their order in `xs`. */
  function InYear(xs: seq<AniListSeries>, y: int): seq<AniListSeries> {
    if xs == [] then []
    else (if xs[0].seasonYear == y then [xs[0]] else []) + InYear(xs[1..], y)
  }

  /** An entry no later than the first of a sorted list can go in front of it. */
  lemma SortedCons(h: AniListSeries, t: seq<AniListSeries>)
    requires SortedByYear(t)
    requires t != [] ==> h.seasonYear <= t[0].seasonYear
    ensures SortedByYear([h] + t)
  {
    var r := [h] + t;
    forall i, j | 0 <= i < j < |r| ensures r[i].seasonYear <= r[j].seasonYear {
      if i == 0 && j > 1 {
        assert t[0].seasonYear <= t[j - 1].seasonYear;
      }
    }
  }

  /** Places `x` before the first entry of `s` whose year is not earlier. */
  function Insert(x: AniListSeries, s: seq<AniListSeries>): (r: seq<AniListSeries>)
    requires SortedByYear(s)
    ensures |r| == |s| + 1
    ensures r[0] == if s == [] || x.seasonYear <= s[0].seasonYear then x else s[0]
  {
    if s == [] || x.seasonYear <= s[0].seasonYear then [x] + s
    else [s[0]] + Insert(x, s[1..])
  }

  /** Inserting into a sorted list gives a sorted list with one more occurrence of `x`. */
  lemma {:induction false} InsertProperties(x: AniListSeries, s: seq<AniListSeries>)
    requires SortedByYear(s)
    ensures SortedByYear(Insert(x, s))
    ensures multiset(Insert(x, s)) == multiset(s) + multiset{x}
  {
    if s == [] || x.seasonYear <= s[0].seasonYear {
      SortedCons(x, s);
    } else {
      var rest := Insert(x, s[1..]);
      InsertProperties(x, s[1..]);
      assert s == [s[0]] + s[1..];
      assert s[0].seasonYear <= rest[0].seasonYear by {
        if |s| > 1 {
          assert s[1..][0] == s[1];
        }
      }
      SortedCons(s[0], rest);
    }
  }

  lemma {:induction false} InsertInYear(x: AniListSeries, s: seq<AniListSeries>, y: int)
    requires SortedByYear(s)
    ensures InYear(Insert(x, s), y) == if x.seasonYear == y then [x] + InYear(s, y) else InYear(s, y)
  {
    if s == [] || x.seasonYear <= s[0].seasonYear {
      assert ([x] + s)[1..] == s;
    } else {
      var rest := Insert(x, s[1..]);
      InsertInYear(x, s[1..], y);
      assert ([s[0]] + rest)[1..] == rest;
    }
  }

  /** The entries sorted by year, entries of the same year keeping their relative order. */
  function SortByYear(xs: seq<AniListSeries>): (r: seq<AniListSeries>)
    ensures SortedByYear(r)
    ensures multiset(r) == multiset(xs)
    ensures |r| == |xs|
    ensures forall y :: InYear(r, y) == InYear(xs, y)
  {
    if xs == [] then []
    else
      var rest := SortByYear(xs[1..]);
      assert xs == [xs[0]] + xs[1..];
      InsertProperties(xs[0], rest);
      forall y ensures InYear(Insert(xs[0], rest), y) == InYear(xs, y) {
        InsertInYear(xs[0], rest, y);
      }
      Insert(xs[0], rest)
  }

  /** Sorting neither adds nor loses an entry. */
  lemma SortMembers(xs: seq<AniListSeries>, e: AniListSeries)
    ensures e in SortByYear(xs) <==> e in xs
  {
    assert multiset(SortByYear(xs)) == multiset(xs);
    assert e in SortByYear(xs) <==> e in multiset(SortByYear(xs));
  }

  /** A list that is already in year order is left as it is. */
  lemma {:induction false} SortSorted(xs: seq<AniListSeries>)
    requires SortedByYear(xs)
    ensures SortByYear(xs) == xs
  {
    if xs != [] {
      SortSorted(xs[1..]);
    }
  }

  lemma {:induction false} InYearFirst(s: seq<AniListSeries>)
    requires s != []
    ensures InYear(s, s[0].seasonYear) == [s[0]] + InYear(s[1..], s[0].seasonYear)
    ensures forall y :: y != s[0].seasonYear ==> InYear(s, y) == InYear(s[1..], y)
  {
  }

  lemma {:induction false} InYearSorted(s: seq<AniListSeries>, y: int)
    requires SortedByYear(s)
    requires s != [] && y < s[0].seasonYear
    ensures InYear(s, y) == []
  {
    if |s| > 1 {
      InYearSorted(s[1..], y);
    }
  }

  /**
   * Two year-sorted lists that hold the same entries of each year in the same
   * order are equal: the result of a stable sort does not depend on the algorithm.
   */
  lemma {:induction false} StableSortIsUnique(r1: seq<AniListSeries>, r2: seq<AniListSeries>)
    requires SortedByYear(r1) && SortedByYear(r2)
    requires forall y :: InYear(r1, y) == InYear(r2, y)
    ensures r1 == r2
    decreases |r1| + |r2|
  {
    if r1 != [] && r2 != [] {
      var y1, y2 := r1[0].seasonYear, r2[0].seasonYear;
      InYearFirst(r1);
      InYearFirst(r2);
      if y1 < y2 {
        InYearSorted(r2, y1);
        assert false;
      } else if y2 < y1 {
        InYearSorted(r1, y2);
        assert false;
      } else {
        assert InYear(r1, y1) == InYear(r2, y1);
        assert r1[0] == InYear(r1, y1)[0] == InYear(r2, y1)[0] == r2[0];
        forall y ensures InYear(r1[1..], y) == InYear(r2[1..], y) {
          assert InYear(r1, y) == InYear(r2, y);
          if y == y1 {
            assert InYear(r1[1..], y) == InYear(r1, y)[1..];
            assert InYear(r2[1..], y) == InYear(r2, y)[1..];
          }
        }
        StableSortIsUnique(r1[1..], r2[1..]);
        assert r1 == [r1[0]] + r1[1..];
        assert r2 == [r2[0]] + r2[1..];
      }
    } else if r1 != [] {
      InYearFirst(r1);
      assert false;
    } else if r2 != [] {
      InYearFirst(r2);
      assert false;
    }
  }

  lemma {:induction false} InsertKeys(x: AniListSeries, s: seq<AniListSeries>)
    requires SortedByYear(s)
    ensures KeySet(Insert(x, s), EntryId) == KeySet(s, EntryId) + {x.anilistId}
    ensures UniqueKeys(s, EntryId) && x.anilistId !in KeySet(s, EntryId) ==> UniqueKeys(Insert(x, s), EntryId)
  {
    if s == [] || x.seasonYear <= s[0].seasonYear {
      UniqueKeysCons(x, s, EntryId);
      KeySetConcat([x], s, EntryId);
    } else {
      var rest := Insert(x, s[1..]);
      assert s == [s[0]] + s[1..];
      InsertKeys(x, s[1..]);
      UniqueKeysCons(s[0], s[1..], EntryId);
      UniqueKeysCons(s[0], rest, EntryId);
      KeySetConcat([s[0]], s[1..], EntryId);
      KeySetConcat([s[0]], rest, EntryId);
    }
  }

  /** Sorting keeps the set of ids, and keeps them unique. */
  lemma {:induction false} SortKeys(xs: seq<AniListSeries>)
    ensures KeySet(SortByYear(xs), EntryId) == KeySet(xs, EntryId)
    ensures UniqueKeys(xs, EntryId) ==> UniqueKeys(SortByYear(xs), EntryId)
  {
    if xs != [] {
      var rest := SortByYear(xs[1..]);
      assert xs == [xs[0]] + xs[1..];
      SortKeys(xs[1..]);
      InsertKeys(xs[0], rest);
      UniqueKeysCons(xs[0], xs[1..], EntryId);
      KeySetConcat([xs[0]], xs[1..], EntryId);
    }
  }
}

/**
 * The metadata-service search: turns the media items a title search returns into
 * metadata entries. An item is kept only if it has a (non-zero) id and release
 * year and a series format; its title is the first non-empty of the English,
 * romanised and native titles. The entries come back in release-year order.
 *
 * The HTTP request is not modelled: its outcome is the `SearchResponse` argument.
 */
module AniListClient {
  import opened Wrappers
  import opened Records
  import opened SeasonSort

  /** The `title` object of a media item; a missing object has every field `None`. */
  datatype MediaTitle = MediaTitle(english: Option<string>, romaji: Option<string>, native: Option<string>)

  /** A media item of the search result; `None` is a missing or null field. */
  datatype MediaItem = MediaItem(id: Option<int>, title: MediaTitle, format: Option<string>, seasonYear: Option<int>)

  /** The outcome of the search request: a transport or status error, or the page's media list. */
  datatype SearchResponse = RequestFailed | Media(items: seq<MediaItem>)

  /** The formats that count as a series. */
  const SeriesFormats: seq<string> := ["TV", "TV_SHORT", "ONA", "OVA"]

  const UnknownTitle: string := "Unknown Title"

  /** Python truthiness of an optional string: present and non-empty. */
  predicate HasText(s: Option<string>) {
    s.Some? && s.value != ""
  }

  /** Python truthiness of an optional integer: present and non-zero. */
  predicate HasNumber(n: Option<int>) {
    n.Some? && n.value != 0
  }

  /** The English title, else the romanised one, else the native one, else "Unknown Title". */
  function PreferredTitle(t: MediaTitle): (r: string)
    ensures r != ""
    ensures HasText(t.english) ==> r == t.english.value
    ensures !HasText(t.english) && HasText(t.romaji) ==> r == t.romaji.value
    ensures !HasText(t.english) && !HasText(t.romaji) && HasText(t.native) ==> r == t.native.value
    ensures !HasText(t.english) && !HasText(t.romaji) && !HasText(t.native) ==> r == UnknownTitle
  {
    if HasText(t.english) then t.english.value
    else if HasText(t.romaji) then t.romaji.value
    else if HasText(t.native) then t.native.value
    else UnknownTitle
  }

  /** Whether an item is kept: it has an id and a year, and a series format. */
  predicate Admissible(item: MediaItem) {
    HasNumber(item.id) && HasNumber(item.seasonYear) &&
    item.format.Some? && item.format.value in SeriesFormats
  }

  /** The entry an admissible item becomes: no releases, no override flags. */
  function ToEntry(item: MediaItem): AniListSeries
    requires Admissible(item)
  {
    NewAniListSeries(item.id.value, PreferredTitle(item.title), item.seasonYear.value)
  }

  /** The entries of the admissible items, in item order. */
  function Entries(items: seq<MediaItem>): seq<AniListSeries> {
    if items == [] then []
    else
      var last := items[|items| - 1];
      Entries(items[..|items| - 1]) + (if Admissible(last) then [ToEntry(last)] else [])
  }

  /** The result of `search_anilist` for one response. */
  function SearchResult(response: SearchResponse): seq<AniListSeries> {
    match response
    case RequestFailed => []
    case Media(items) => SortByYear(Entries(items))
  }

  /** `search_anilist`: the per-item loop, then a stable sort by release year. */
  method SearchAniList(response: SearchResponse) returns (entries: seq<AniListSeries>)
    ensures entries == SearchResult(response)
    ensures SortedByYear(entries)
  {
    if response.RequestFailed? {
      return [];
    }
    var items := response.items;
    if items == [] {
      return [];
    }
    entries := [];
    var i := 0;
    while i < |items|
      invariant 0 <= i <= |items|
      invariant entries == Entries(items[..i])
    {
      assert items[..i + 1][..i] == items[..i];
      var item := items[i];
      if !HasNumber(item.id) || !HasNumber(item.seasonYear) {
        i := i + 1;
        continue;
      }
      if item.format.None? || item.format.value !in SeriesFormats {
        i := i + 1;
        continue;
      }
      var title := PreferredTitle(item.title);
      entries := entries + [NewAniListSeries(item.id.value, title, item.seasonYear.value)];
      i := i + 1;
    }
    assert items[..i] == items;
    entries := SortByYear(entries);
  }

  /**
   * Every entry comes from an admissible item and carries its id, year and
   * preferred title, no releases and no override flags; every admissible item
   * gives an entry.
   */
  lemma {:induction false} EntriesMembers(items: seq<MediaItem>)
    ensures |Entries(items)| <= |items|
    ensures forall e :: e in Entries(items) <==> exists item :: item in items && Admissible(item) && e == ToEntry(item)
    ensures forall e :: e in Entries(items) ==>
      e.anilistId != 0 && e.seasonYear != 0 && e.title != "" &&
      e.torrents == [] && !e.manuallyAdded && !e.ignore
  {
    if items != [] {
      var init := items[..|items| - 1];
      var last := items[|items| - 1];
      EntriesMembers(init);
      assert items == init + [last];
      forall e ensures e in Entries(items) <==> exists item :: item in items && Admissible(item) && e == ToEntry(item) {
        if e in Entries(init) {
          var item :| item in init && Admissible(item) && e == ToEntry(item);
          assert item in items;
        }
        if exists item :: item in items && Admissible(item) && e == ToEntry(item) {
          var item :| item in items && Admissible(item) && e == ToEntry(item);
          if item != last {
            assert item in init;
          }
        }
      }
    }
  }

  /**
   * The search result is sorted by year, holds the admissible items' entries (as
   * a multiset, so with repetitions), and keeps the item order within one year.
   */
  lemma SearchResultProperties(items: seq<MediaItem>)
    ensures SortedByYear(SearchResult(Media(items)))
    ensures multiset(SearchResult(Media(items))) == multiset(Entries(items))
    ensures forall y :: InYear(SearchResult(Media(items)), y) == InYear(Entries(items), y)
    ensures forall e :: e in SearchResult(Media(items)) <==>
      exists item :: item in items && Admissible(item) && e == ToEntry(item)
  {
    EntriesMembers(items);
    forall e ensures e in SearchResult(Media(items)) <==> e in Entries(items) {
      SortMembers(Entries(items), e);
    }
  }

  /** No item is admissible exactly when there are no entries. */
  lemma {:induction false} EntriesEmpty(items: seq<MediaItem>)
    ensures Entries(items) == [] <==> forall i :: 0 <= i < |items| ==> !Admissible(items[i])
  {
    if items != [] {
      var init := items[..|items| - 1];
      EntriesEmpty(init);
      assert forall i :: 0 <= i < |init| ==> init[i] == items[i];
    }
  }

  /** A failed request and a page without an admissible item both give no entries. */
  lemma SearchResultEmpty(response: SearchResponse)
    ensures SearchResult(response) == [] <==>
      response.RequestFailed? || forall i :: 0 <= i < |response.items| ==> !Admissible(response.items[i])
  {
    if response.Media? {
      assert |SearchResult(response)| == |Entries(response.items)|;
      EntriesEmpty(response.items);
    }
  }
}

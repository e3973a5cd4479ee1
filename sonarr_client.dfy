/**
 * The media-manager client: turns the manager's series list into the monitored
 * series the catalog tracks. A series is taken when it is monitored and has an
 * id; its season count leaves out the specials season (number 0).
 *
 * The HTTP request is not modelled: its outcome is the `SeriesResponse` argument.
 */
module SonarrClient {
  import opened Wrappers
  import opened Records

  /** A season of a manager series; `None` is a missing season number. */
  datatype SeasonItem = SeasonItem(seasonNumber: Option<int>)

  /** A series of the manager's list; `None` is a missing field (a missing season list is empty). */
  datatype SeriesItem = SeriesItem(
    monitored: Option<bool>,
    id: Option<int>,
    title: Option<string>,
    seasons: seq<SeasonItem>)

  /** The outcome of the series request: an error, or the manager's list. */
  datatype SeriesResponse = RequestFailed | SeriesList(items: seq<SeriesItem>)

  /** Whether a season is a regular one (number above 0; a missing number counts as 0). */
  predicate Regular(s: SeasonItem) {
    s.seasonNumber.GetOr(0) > 0
  }

  /** The number of regular seasons. */
  function RegularSeasons(seasons: seq<SeasonItem>): nat {
    if seasons == [] then 0
    else RegularSeasons(seasons[..|seasons| - 1]) + (if Regular(seasons[|seasons| - 1]) then 1 else 0)
  }

  /** Whether a series is taken: monitored (missing counts as not) and with an id (0 is an id). */
  predicate Taken(item: SeriesItem) {
    item.monitored.GetOr(false) && item.id.Some?
  }

  /** The series a taken item becomes: missing title "", no metadata entries yet. */
  function ToSeries(item: SeriesItem): Series
    requires Taken(item)
  {
    NewSeries(item.id.value, item.title.GetOr(""), RegularSeasons(item.seasons))
  }

  /** The series of the taken items, in list order. */
  function MonitoredSeries(items: seq<SeriesItem>): seq<Series> {
    if items == [] then []
    else
      var last := items[|items| - 1];
      MonitoredSeries(items[..|items| - 1]) + (if Taken(last) then [ToSeries(last)] else [])
  }

  /** The result of `get_monitored_series` for one response. */
  function MonitoredResult(response: SeriesResponse): seq<Series> {
    match response
    case RequestFailed => []
    case SeriesList(items) => MonitoredSeries(items)
  }

  /** `get_monitored_series`: the per-series loop. */
  method GetMonitoredSeries(response: SeriesResponse) returns (series: seq<Series>)
    ensures series == MonitoredResult(response)
  {
    if response.RequestFailed? {
      return [];
    }
    var items := response.items;
    if items == [] {
      return [];
    }
    series := [];
    var i := 0;
    while i < |items|
      invariant 0 <= i <= |items|
      invariant series == MonitoredSeries(items[..i])
    {
      assert items[..i + 1][..i] == items[..i];
      var item := items[i];
      if item.monitored.GetOr(false) {
        if item.id.None? {
          i := i + 1;
          continue;
        }
        var numSeasons := RegularSeasons(item.seasons);
        series := series + [NewSeries(item.id.value, item.title.GetOr(""), numSeasons)];
      }
      i := i + 1;
    }
    assert items[..i] == items;
  }

  lemma {:induction false} RegularSeasonsConcat(a: seq<SeasonItem>, b: seq<SeasonItem>)
    ensures RegularSeasons(a + b) == RegularSeasons(a) + RegularSeasons(b)
  {
    if b != [] {
      var init := b[..|b| - 1];
      RegularSeasonsConcat(a, init);
      assert (a + b)[..|a + b| - 1] == a + init;
    } else {
      assert a + b == a;
    }
  }

  /** The count is at most the number of seasons, with equality iff every season is regular. */
  lemma {:induction false} RegularSeasonsBounds(seasons: seq<SeasonItem>)
    ensures RegularSeasons(seasons) <= |seasons|
    ensures RegularSeasons(seasons) == |seasons| <==> forall i :: 0 <= i < |seasons| ==> Regular(seasons[i])
    ensures RegularSeasons(seasons) == 0 <==> forall i :: 0 <= i < |seasons| ==> !Regular(seasons[i])
  {
    if seasons != [] {
      var init := seasons[..|seasons| - 1];
      RegularSeasonsBounds(init);
      assert forall i :: 0 <= i < |init| ==> init[i] == seasons[i];
    }
  }

  /**
   * Every series comes from a taken item and carries its id, title (or "") and
   * regular-season count with no metadata entries; every taken item gives one.
   */
  lemma {:induction false} MonitoredSeriesMembers(items: seq<SeriesItem>)
    ensures |MonitoredSeries(items)| <= |items|
    ensures forall s :: s in MonitoredSeries(items) <==> exists item :: item in items && Taken(item) && s == ToSeries(item)
    ensures forall s :: s in MonitoredSeries(items) ==> s.anilistEntries == [] && s.numSeasons >= 0
  {
    if items != [] {
      var init := items[..|items| - 1];
      var last := items[|items| - 1];
      MonitoredSeriesMembers(init);
      assert items == init + [last];
      forall s ensures s in MonitoredSeries(items) <==> exists item :: item in items && Taken(item) && s == ToSeries(item) {
        if s in MonitoredSeries(init) {
          var item :| item in init && Taken(item) && s == ToSeries(item);
          assert item in items;
        }
        if exists item :: item in items && Taken(item) && s == ToSeries(item) {
          var item :| item in items && Taken(item) && s == ToSeries(item);
          if item != last {
            assert item in init;
          }
        }
      }
    }
  }

  /** The list is taken item by item: a split of the manager's list splits the result. */
  lemma {:induction false} MonitoredSeriesConcat(a: seq<SeriesItem>, b: seq<SeriesItem>)
    ensures MonitoredSeries(a + b) == MonitoredSeries(a) + MonitoredSeries(b)
  {
    if b != [] {
      var init := b[..|b| - 1];
      MonitoredSeriesConcat(a, init);
      assert (a + b)[..|a + b| - 1] == a + init;
    } else {
      assert a + b == a;
    }
  }
}

/**
 * The record types of the catalog: a release (`Trs`), a metadata-service
 * entry (`AniListSeries`) and a monitored series (`Series`).
 */
module Records {
  import opened Wrappers

  /**
   * A release from the release index. Everything but `chosen` is fixed when the
   * release is read from the index; `chosen` is local state ("this release was
   * selected for download") that the selector updates in place.
   */
  class Trs {
    const id: string
    const infoHash: string
    const tracker: string
    const url: string
    const isBest: bool
    const dualAudio: bool
    /** True iff the index redacted the content hash (access-restricted tracker). */
    const private: bool
    var chosen: bool

    constructor (id: string, infoHash: string, tracker: string, url: string,
                 isBest: bool, dualAudio: bool, private: bool, chosen: bool := false)
      ensures this.id == id && this.infoHash == infoHash && this.tracker == tracker && this.url == url
      ensures this.isBest == isBest && this.dualAudio == dualAudio && this.private == private
      ensures this.chosen == chosen
    {
      this.id := id;
      this.infoHash := infoHash;
      this.tracker := tracker;
      this.url := url;
      this.isBest := isBest;
      this.dualAudio := dualAudio;
      this.private := private;
      this.chosen := chosen;
    }
  }

  /** A metadata-service entry (one season or cour) and the releases known for it. */
  datatype AniListSeries = AniListSeries(
    anilistId: int,
    title: string,
    seasonYear: int,
    torrents: seq<Trs>,
    manuallyAdded: bool,
    ignore: bool)

  /** A series monitored by the media manager and its metadata entries. */
  datatype Series = Series(
    sonarrId: int,
    title: string,
    numSeasons: int,
    anilistEntries: seq<AniListSeries>)

  /**
   * Builds an entry the way the record's constructor does: the override flags
   * default to off, and a missing (`None`) release list becomes the empty list.
   */
  function NewAniListSeries(anilistId: int, title: string, seasonYear: int,
                            torrents: Option<seq<Trs>> := Some([]),
                            manuallyAdded: bool := false, ignore: bool := false): (r: AniListSeries)
    ensures r.anilistId == anilistId && r.title == title && r.seasonYear == seasonYear
    ensures r.manuallyAdded == manuallyAdded && r.ignore == ignore
    ensures torrents.None? ==> r.torrents == []
    ensures torrents.Some? ==> r.torrents == torrents.value
  {
    AniListSeries(anilistId, title, seasonYear, torrents.GetOr([]), manuallyAdded, ignore)
  }

  /** Builds a series the way the record's constructor does: a missing entry list becomes the empty list. */
  function NewSeries(sonarrId: int, title: string, numSeasons: int,
                     anilistEntries: Option<seq<AniListSeries>> := Some([])): (r: Series)
    ensures r.sonarrId == sonarrId && r.title == title && r.numSeasons == numSeasons
    ensures anilistEntries.None? ==> r.anilistEntries == []
    ensures anilistEntries.Some? ==> r.anilistEntries == anilistEntries.value
  {
    Series(sonarrId, title, numSeasons, anilistEntries.GetOr([]))
  }

  /** The dictionary keys the engine uses for each record type. */
  function TrsId(t: Trs): string { t.id }
  function EntryId(e: AniListSeries): int { e.anilistId }
  function SeriesId(s: Series): int { s.sonarrId }
}

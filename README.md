# sonarr-seadex-grabber, modelled in Dafny

sonarr-seadex-grabber keeps a local catalog of the anime series a Sonarr
instance monitors. For each series it keeps the matching AniList entries, and
for each entry the releases that the SeaDex index recommends. It selects the
best-scoring release for download. This project models the reconciliation and
selection core of that program, and the three API clients that feed it:

- **Series sync** (`SeriesSync`). The known catalog is reconciled with the
  series Sonarr monitors now, keyed by Sonarr id. Known series that are still
  monitored stay unmodified, in known order. New series follow in Sonarr's
  order. Series that are no longer monitored are dropped.
- **AniList merge** (`AniListMerge`, `SeasonSort`). The known entries of a
  series are reconciled with a fresh AniList search, keyed by AniList id.
  Entries that are manually added or ignored survive a search that no longer
  returns them. The result is stably sorted by season year.
- **Scoring** (`Scoring`). A release's score is the is-best weight, plus the
  dual-audio weight, plus the tracker weight (else the `default` weight, else
  0). The log breakdown string is modelled down to Python's `str(int)`.
- **Release merge and selection** (`TorrentSelection`). Known and found
  releases are merged by id. A known release stays when it is found again or
  was chosen, and its `chosen` flag is cleared in place. New found releases are
  appended. The candidates are the originally chosen known releases and the new
  public ones. The first highest-scoring candidate is selected and marked
  chosen, unless it was chosen already.
- **Clients** (`AniListClient`, `SeadexClient`, `SonarrClient`). Each client
  turns a decoded API response into records: it filters, applies defaults,
  detects private releases by their redacted hash, and counts regular seasons.
  The HTTP request is a parameter: its outcome is a datatype with a failure
  case. The per-id detail lookups of the SeaDex client are a function argument.

Python's dict comprehension `{key(x): x for x in xs}` is modelled once, in
`PyDict`. The keys keep their first position and take their last value, so
duplicate ids in the inputs behave as in Python. `Trs` is a class: the selector
updates `chosen` on the caller's objects, and the model states the new flag of
every release. `AniListSeries` and `Series` are datatypes, since the modelled
core never mutates them.

The source disagrees with itself in two places; the model follows the evident
intent:

- data_class.py's `Trs` has no `private` field. seadex_client.py:77-86 passes
  `private=` and main.py:137 and main.py:174 read it. The model has the field.
- data_class.py:33 and data_class.py:55 give mutable `[]` defaults to dataclass
  fields, which Python's dataclass decorator rejects. `__post_init__` shows the
  intent: a missing list becomes an empty one. `NewAniListSeries` and
  `NewSeries` model that.

## Model

| member | source | states |
|---|---|---|
| Records.Trs.constructor | data_class.py:6-23 | every field holds the given value; `chosen` defaults to not chosen |
| Records.NewAniListSeries | data_class.py:26-45 | id, title, year and flags as given, flags defaulting to off; a missing release list becomes empty |
| Records.NewSeries | data_class.py:48-62 | id, title and season count as given; a missing entry list becomes empty |
| PyDict.PutShape | main.py:33-34 | one comprehension step adds exactly the key of the new value and no foreign element; a new key is appended at the end |
| PyDict.PutUnique | main.py:33-34 | one comprehension step keeps keys unique, leaving the new value the only one with its key |
| PyDict.PutProperties | main.py:33-34 | one comprehension step adds exactly the new key and at most one element; a new key appends; keys stay unique |
| PyDict.PutExisting | main.py:33-34 | assigning to a key already present keeps the length, puts the value at that key's position, and leaves every other element in place |
| PyDict.FromListFirstOrder | main.py:33-34 | the dict holds its keys in the order of their first occurrence in the list |
| PyDict.FromListKeys | main.py:33-34 | the dict has exactly the list's keys, each once, and holds only list elements |
| PyDict.FromListLastValue | main.py:33-34 | each key maps to the last element of the list with that key |
| PyDict.PutExistingOrdered | main.py:33-34 | overwriting a key already present keeps the keys in first-occurrence order |
| PyDict.PutNewOrdered | main.py:33-34 | appending a new key keeps the keys in first-occurrence order, with the new key last |
| PyDict.FromListUnique | main.py:33-34 | with no repeated key, the dict is the list itself, in order |
| PyDict.WithKeyInProperties | main.py:40-42 | the filter keeps exactly the elements whose key is in the set, and keeps keys unique |
| PyDict.WithKeyNotInProperties | main.py:46-48 | the filter keeps exactly the elements whose key is not in the set, and keeps keys unique |
| PyDict.WithKeyInMember | main.py:40-42 | an element is kept iff it is in the list and its key is in the set |
| PyDict.WithKeyNotInMember | main.py:46-48 | an element is kept iff it is in the list and its key is not in the set |
| PyDict.WithKeyInAll | main.py:40-42 | when every key is in the set, nothing is dropped |
| PyDict.WithKeyNotInNone | main.py:46-48 | when every key is in the set, nothing is added |
| SeriesSync.SyncSonarrSeries | main.py:28-56 | the two append loops compute the synced catalog, whose ids are exactly the monitored ids |
| SeriesSync.SyncedIds | main.py:28-56 | the synced ids are exactly Sonarr's ids, each once |
| SeriesSync.SyncedMembers | main.py:39-49 | a series is synced iff it is a known series still monitored, or a monitored series with a new id |
| SeriesSync.SyncedUnique | main.py:33-49 | with duplicate-free inputs: the still-monitored known series in known order, then the new ones in Sonarr order |
| SeriesSync.SyncIdempotent | main.py:28-56 | syncing the synced catalog against the same Sonarr list changes nothing |
| SeasonSort.Insert | main.py:95 | inserting into a sorted list adds one element and puts the earlier-year one first |
| SeasonSort.InsertProperties | main.py:95 | inserting keeps the list sorted by year and adds exactly the element |
| SeasonSort.InsertInYear | main.py:95 | the inserted entry goes before every entry of its own year |
| SeasonSort.SortByYear | main.py:95 | the result is sorted by year, is a permutation of the input, and keeps input order within a year (stable) |
| SeasonSort.SortMembers | main.py:95 | sorting keeps exactly the same entries |
| SeasonSort.SortSorted | main.py:95 | sorting a sorted list changes nothing |
| SeasonSort.InYearFirst | main.py:95 | the first entry heads the entries of its year and is absent from every other year |
| SeasonSort.InYearSorted | main.py:95 | a sorted list has no entry of a year before its first entry's year |
| SeasonSort.StableSortIsUnique | main.py:95 | two sorted lists with the same entries per year, in the same order, are equal: the stable sort is unique |
| SeasonSort.InsertKeys | main.py:95 | inserting adds exactly the entry's id and keeps ids unique |
| SeasonSort.SortKeys | main.py:95 | sorting keeps the id set and keeps ids unique |
| AniListMerge.KeptEntriesProperties | main.py:69-86 | a known entry is kept iff it is found again, or manually added or ignored; ids stay unique |
| AniListMerge.KeptEntriesAll | main.py:69-86 | when every entry is found or protected, none is removed |
| AniListMerge.MergeAniListIds | main.py:59-97 | the loops and the sort compute the merge, which is sorted by year and keeps the unsorted order within a year |
| AniListMerge.DictIds | main.py:64-65 | the two dicts have exactly the lists' ids, each once |
| AniListMerge.MergedMember | main.py:69-95 | an entry is merged iff it is a known entry found again or protected, or a found entry with a new id |
| AniListMerge.UnsortedIds | main.py:69-92 | every found id is merged; every merged id was known or found, and appears once |
| AniListMerge.MergedIds | main.py:59-97 | after the sort: every found id is present, no id is invented, and none repeats |
| AniListMerge.MergeOverrideProtection | main.py:70-86 | a known entry survives iff it is found again or its manually-added or ignore flag is set |
| AniListMerge.MergeIdempotent | main.py:59-97 | merging the merged list again with the same search result changes nothing |
| Scoring.BonusesReported | main.py:124-138 | the breakdown names is_best iff best, dual_audio iff dual-audio, the tracker iff its score is not 0, "private" iff private |
| Scoring.TotalConcat | main.py:100-117 | the bonus total of two lists is the sum of their totals |
| Scoring.ScoreIsBreakdownTotal | main.py:100-140 | a release's score equals the sum of the values its breakdown reports |
| Scoring.ScoreDependsOnlyOnFlagsAndTracker | main.py:100-117 | privacy, hash, url and id do not change the score |
| Scoring.NatToString | main.py:125 | `str` of a natural number is a non-empty digit string without a leading zero |
| Scoring.NatToStringRoundTrip | main.py:125 | the digits of `str(n)` denote n |
| Scoring.IntToString | main.py:125-134 | `str(i)` is non-empty and starts with a minus sign iff i is negative |
| Scoring.IntToStringRoundTrip | main.py:125-134 | the digits after the sign denote the absolute value |
| Scoring.Render | main.py:124-138 | every breakdown item renders non-empty, never starting like "no bonuses" |
| Scoring.RenderAll | main.py:122-138 | one rendered item per bonus, in order |
| Scoring.JoinStartsWithFirst | main.py:140 | the `" \| "` join starts with the first item |
| Scoring.BreakdownNoBonuses | main.py:120-140 | the breakdown is "no bonuses" iff no item applies; otherwise it starts with the first item |
| TorrentSelection.ChosenIdsProperties | main.py:157-161 | the remembered ids are exactly the ids of the releases chosen at the start |
| TorrentSelection.FirstMaxUpTo | main.py:192 | the index is of a highest score among the prefix, and every earlier index scores strictly lower |
| TorrentSelection.FirstMax | main.py:186-192 | `max` by score picks a highest-scoring candidate, the first one among equals |
| TorrentSelection.PublicTorrentsMembers | main.py:174-177 | a release is a public candidate iff it is not private |
| TorrentSelection.PublicTorrentsSnoc | main.py:171-177 | appending one release adds it to the public candidates iff it is not private |
| TorrentSelection.NewTorrentsIds | main.py:170-173 | the new releases carry exactly the found ids that are not known, each once |
| TorrentSelection.NewTorrentsMembers | main.py:170-173 | a release is new iff it is in the found dict with an id that is not known |
| TorrentSelection.KeptTorrentsMembers | main.py:155-168 | a known release is kept iff it is found again or was originally chosen |
| TorrentSelection.KeptNotNew | main.py:155-178 | kept releases carry known ids and new ones do not: the two parts of the merge are disjoint |
| TorrentSelection.MergedMembers | main.py:155-178 | a release is merged iff it is kept or new, and comes from the inputs |
| TorrentSelection.SelectedIsNewPublic | main.py:180-202 | only a new public release that was not chosen before can be selected, and no candidate scores higher |
| TorrentSelection.CandidatesMembers | main.py:155-177 | candidates are exactly the originally chosen known releases and the new public ones |
| TorrentSelection.MergedIds | main.py:155-178 | the merge holds every found id and the originally chosen known ids, each once |
| TorrentSelection.SelectedBeatsChosen | main.py:186-202 | a new selection scores strictly higher than every originally chosen release |
| TorrentSelection.NoReselectionWhileUnbeaten | main.py:186-199 | while a chosen release scores at least as high as every new public one, nothing is selected |
| TorrentSelection.MergeParts | main.py:155-178 | how the kept, new and dropped releases relate to the inputs |
| TorrentSelection.ClearRetained | main.py:155-168 | the first loop keeps the found-again or chosen releases, collects the chosen ones, and clears every flag |
| TorrentSelection.AppendNew | main.py:170-178 | the second loop appends the new releases, and the public ones to the candidates |
| TorrentSelection.MergePhase | main.py:147-178 | the merged list and candidates; flags are cleared on kept releases and untouched elsewhere |
| TorrentSelection.ChooseBestAndMergeTorrents | main.py:143-208 | the merge and the selection as specified above; the flag of every release afterwards; only the selected release is chosen when no found release came in chosen |
| AniListClient.PreferredTitle | anilist_client.py:70-76 | English, else romaji, else native (skipping empty ones), else "Unknown Title"; never empty |
| AniListClient.SearchAniList | anilist_client.py:12-94 | the loop and sort compute the search result, sorted by year |
| AniListClient.EntriesMembers | anilist_client.py:53-89 | an entry is produced iff an item has id, year and a series format; it has no releases and no override flags |
| AniListClient.SearchResultProperties | anilist_client.py:53-94 | the result is sorted, a permutation of the admitted entries, stable within a year, with exactly the admitted items' entries |
| AniListClient.EntriesEmpty | anilist_client.py:54-68 | no entry iff no item is admissible |
| AniListClient.SearchResultEmpty | anilist_client.py:37-94 | the result is empty iff the request failed or no item is admissible |
| SeadexClient.TorrentInfo | seadex_client.py:13-24 | a detail record exists iff the request succeeded with items, and it is the first item |
| SeadexClient.ToRelease | seadex_client.py:57-86 | a release exists iff hash and url are non-empty; defaults for the other fields; private iff the hash is redacted |
| SeadexClient.GetSeadexReleases | seadex_client.py:26-98 | one new, not chosen release per usable record, in id order, carrying that record's fields |
| SeadexClient.CollectTrsIds | seadex_client.py:42-46 | the loop collects the entries' id lists in entry order |
| SeadexClient.CreateReleases | seadex_client.py:52-95 | the loop creates exactly the releases the ids give, new and not chosen |
| SeadexClient.TrsIdsConcat | seadex_client.py:42-46 | collecting over two runs of entries concatenates their ids |
| SeadexClient.TrsIdsMembers | seadex_client.py:42-46 | an id is collected iff some entry lists it |
| SeadexClient.ReleasesConcat | seadex_client.py:52-95 | looking up two runs of ids concatenates their releases |
| SeadexClient.ReleasesProperties | seadex_client.py:52-95 | every release has a hash and a url, is private iff redacted, and comes from an id; every usable id gives its release |
| SonarrClient.GetMonitoredSeries | sonarr_client.py:14-55 | the loop computes the monitored series list; a failed request gives none |
| SonarrClient.RegularSeasonsConcat | sonarr_client.py:41-44 | counting regular seasons over two runs adds up |
| SonarrClient.RegularSeasonsBounds | sonarr_client.py:41-44 | the count is at most the number of seasons: equal iff every season is regular, 0 iff none is |
| SonarrClient.MonitoredSeriesMembers | sonarr_client.py:29-53 | a series is listed iff a monitored item with an id gives it; it has no AniList entries |
| SonarrClient.MonitoredSeriesConcat | sonarr_client.py:29-53 | the list is built item by item: splitting the input splits the result |
| Reconfirmation.TopInMerged | main.py:186-202 | the top candidate is a merged release |
| Reconfirmation.ReconfirmationPass | main.py:186-199 | a chosen release that is found again and beats the new one is re-confirmed: no selection |
| Reconfirmation.ReplacementPass | main.py:155-202 | with nothing remembered as chosen, a new public release is selected whatever the known releases score |
| Reconfirmation.KeptChoicePass | main.py:186-199 | with the release still remembered as chosen, the lower-scoring new release is not selected |
| Reconfirmation.TwoPassesAsWritten | main.py:143-208 | two passes as written: the re-confirmed release loses its flag and a lower-scoring new release is selected |
| Reconfirmation.FirstPassAsWritten | main.py:143-208 | first pass as written: no selection, and the chosen release's flag is cleared |
| Reconfirmation.SecondPassAsWritten | main.py:143-208 | second pass as written: the new release is selected |
| Reconfirmation.ChooseBestAndMergeTorrentsKeepingChoice | main.py:143-208 | as the selector, but the top candidate stays chosen also when it was chosen already |
| Reconfirmation.TwoPassesKeepingChoice | main.py:143-208 | with the choice kept, neither pass selects anything and the first release stays chosen |
| Reconfirmation.FirstPassKeepingChoice | main.py:143-208 | first pass with the choice kept: no selection, the re-confirmed release stays chosen |
| Reconfirmation.SecondPassKeepingChoice | main.py:143-208 | second pass with the choice kept: no selection, the chosen release stays chosen |

## Left out

- HTTP requests, JSON decoding and timeouts: each response is a datatype argument with a failure case. `RequestException` and status errors become that case.
- Logging (`utils.log`) and the log line at main.py:204-207: the breakdown string is modelled, not its output.
- The orchestration in main.py:211-348, the webhook server, the qBittorrent client, the JSON cache, the configuration and `utils`: outside the modelled core.
- The scoring weights are configuration, so they are a `Weights` parameter and not constants.
- JSON fields that are present but `null`, and non-schema JSON types, are not told apart from missing fields: the model applies the default. In the source, `.get(key, default)` returns `None` for an explicit `null`, and several places then raise instead of falling back. A `null` `title` fails at anilist_client.py:72, a `null` `data` or `Page` at anilist_client.py:44, a `null` `trs` at seadex_client.py:46, and a `null` `seasons` or `seasonNumber` at sonarr_client.py:42-43. None of these exceptions is a `RequestException`, so it aborts the whole pass: the handlers are at main.py:266 and main.py:286, and on the startup scan the error ends the process (main.py:319, re-raised at main.py:338-340).
- SeadexClient.ReleaseOf: the detail lookup is a pure function of the id, so a release id listed twice gets the same record both times. The source sends one request per occurrence (seadex_client.py:54-55), and the answers can differ. `ReleasesProperties`'s clause `ReleaseOf(f.id, lookup) == Some(f)` relies on this.
- seadex_client.py:56: an empty detail dict is falsy and is skipped, as is a record without hash or url. The model merges the two paths, since both create no release.
- SeasonSort.SortByYear: Python's in-place `list.sort` is modelled as a function computing the stable sort. The in-place update of the local list is not represented.
- AniListClient.SearchAniList: the sort is the same functional stable sort as above.
- The `__repr__` methods of the three records: string formatting for logs.

## Findings

| source | as written | input that shows it | evidently intended | confidence | as-written member | corrected member |
|---|---|---|---|---|---|---|
| main.py:194-199 | when the top candidate was chosen already, the function returns no selection and leaves that release's `chosen` flag cleared by the merge loop (main.py:165) | pass 1: known [A chosen], found [A, B] with score(B) <= score(A); pass 2: known [A, B], found [A, B, C], C public with score(C) < score(A) | the re-confirmed release stays chosen, as the log at main.py:196 ("already chosen - no redownload needed") and the comment at main.py:201 describe, so pass 2 selects nothing | not executed | Reconfirmation.TwoPassesAsWritten | Reconfirmation.TwoPassesKeepingChoice |

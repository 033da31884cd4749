# cricket_score: a verified model of the scraper core

cricket_score serves cricket schedules and scorecards scraped from hamariweb.com. This
project models the logic in `scraper.py` that turns scraped page content into schedule
items and scorecards. It also models the flag-image bookkeeping shared by `scraper.py`
and the batch script `download_flags.py`:
- each flag id gets a raw GIF and a copy named after its team;
- `mapping.json` maps each id to a name and to the path of its local copy.

The HTML pages are not parsed here. What BeautifulSoup would locate becomes plain values:
- a schedule card (`Schedule.Card`) holds its `<p>` text and optional `<small>` status, its
  team nodes (name text plus optional image src), the first href, and the `match_result`
  text;
- a schedule table row (`Schedule.Row`) is a sequence of cells, each with its text and
  its team links;
- a scorecard table (`Scorecard.ScoreTable`) is an optional header text plus rows of cells.
  The first cell of a row also carries its `<b>` and `<small>` texts.

The disk is a value `FileSystem.Files`, mapping each path under `/workspace` to its size.
The network becomes a `FetchOutcome` per flag id, supplied by an `Oracle` parameter.

Modules:
- `Wrappers` holds `Option` and Python truthiness.
- `Text` holds strip, lower, find, split and `str(int)`.
- `Slug` is `_slugify` / `slugify`. The two functions are identical, so one model serves both.
- `FlagIds` is the regex `(?:cricflag|flags)/([0-9]+)\.(?:png|gif)`, written as a scan.
- `FileSystem` holds the paths and the raw download.
- `FlagMapping` holds the dicts of `mapping.json` (association lists that keep insertion
  order) and the loading of the file.
- `FlagResolver` covers:
  - `_ensure_flag_local`, as the class `FlagStore`. It holds the two in-memory maps that the
    scraper mutates, and its disambiguation `while` loop is proved against the pure
    function `Resolve`;
  - `_local_gif_for_src` and `_norm_src`.
- `Walk` holds the two generic passes over a page's items: collecting one optional record
  per item while a state is threaded through (the card and row loops), and selecting the
  items a test accepts, in order (the scorecard table filters).
- `TeamLinks` is the walk over a table row's team links (names, one image per link, the
  first usable `href`), with the image lookup and `href` normalisation as parameters.
- `Schedule` covers the card pass, the table pass and the first-key-wins merge. Each loop is
  a method proved equal to a function that recurses over the input.
- `Scorecard` covers the batting, bowling and match-info tables, the title split, and how
  innings are assembled.
- `BatchFlags` covers `download_flags.py`:
  - `record` and the two collection loops;
  - `write_by_name_gifs`;
  - the download of ids 1 to 300;
  - the name merge and the path merge of `main`.

Two facts the model makes explicit:
- The reuse `break` in the disambiguation loop of `_ensure_flag_local` (scraper.py:113-114)
  cannot fire. A path mapped to this id whose file exists already returned at
  scraper.py:93-98, so the first free candidate is always a file that was absent
  (`FlagResolver.ChosenIsFresh`).
- The assignment `_FLAGS_MAP = flags` at scraper.py:126 binds a local name. The global
  cache is still updated, because `flags` is the same dict object, mutated in place.
  `FlagStore` is that one shared object.

## Model

| member | source | states |
|---|---|---|
| Wrappers.OrElse | scraper.py:242 | `a or b` on optional strings: `a` when it is a non-empty string, otherwise `b` |
| Wrappers.NonEmpty | scraper.py:328 | `s or None`: absent exactly when `s` is empty, otherwise `s` itself |
| Wrappers.Lookup | scraper.py:92-95 | `d.get(k)`: present exactly when `k` is a key, and then its value |
| Text.Strip | scraper.py:215 | the result has no leading or trailing whitespace, is no longer than the input, and uses only its characters |
| Text.LStrip | scraper.py:42 | the result is a suffix of the input that does not start with whitespace, and everything cut off is whitespace |
| Text.RStrip | scraper.py:42 | the result is a prefix of the input that does not end with whitespace, and everything cut off is whitespace |
| Text.LStripCutsSpace | scraper.py:215 | `lstrip()` cuts only whitespace |
| Text.RStripCutsSpace | scraper.py:215 | `rstrip()` cuts only whitespace |
| Text.StripIsSlice | scraper.py:215 | `strip()` is a slice of the input, and everything cut from either end is whitespace |
| Text.StripStripped | scraper.py:42 | stripping text with no whitespace at its ends changes nothing |
| Text.StripTrailingSpace | scraper.py:215 | a stripped title followed by one space strips back to the title |
| Text.Lower | scraper.py:432 | same length; each character is mapped by ASCII lower-casing |
| Text.IndexOf | scraper.py:513 | a found index is an occurrence with no earlier occurrence from `start`; none found means no occurrence at all |
| Text.SplitOnce | scraper.py:514-516 | `split(sep, 1)`: either no occurrence and the whole string, or `s == head + sep + tail` where `head` contains no `sep` |
| Text.RemoveAll | scraper.py:215 | `replace(p, "")` never makes the text longer |
| Text.RemoveAllAbsent | scraper.py:215 | when `p` occurs nowhere, `replace(p, "")` leaves the text unchanged |
| Text.RemoveAllOnlyAt | scraper.py:215 | when `p` occurs exactly once, at `k`, `replace(p, "")` cuts out exactly that occurrence |
| Text.RemoveAllSeparatedSuffix | scraper.py:215 | removing a status that occurs in `title + " " + status` only after the space leaves `title + " "`; the status may contain spaces |
| Text.NatToString | download_flags.py:36 | the decimal form of a number is non-empty and all digits |
| Text.NatToStringInjective | download_flags.py:136-137 | distinct ids in the download range give distinct file names |
| Text.NonEmptyStrings | scraper.py:232-233 | the kept strings are non-empty, no more than given, and every non-empty input string is kept |
| Text.NonEmptyStringsAppend | scraper.py:232-233 | keeping the non-empty strings of two runs keeps those of the first run, then those of the second, so input order is kept |
| Slug.Slugify | scraper.py:41-45 | the slug is non-empty, uses only `[a-z0-9-]`, and has no leading, trailing or doubled hyphen |
| Slug.HyphenateRuns | scraper.py:43 | `re.sub(r"[^a-z0-9]+", "-", s)`: the result uses only `[a-z0-9-]` |
| Slug.HyphenateCopiesSlugBlock | scraper.py:43 | a block of `[a-z0-9]` characters is copied unchanged |
| Slug.HyphenateRunBecomesHyphen | scraper.py:43 | a maximal run of other characters becomes exactly one hyphen |
| Slug.SquashHyphens | scraper.py:44 | `re.sub(r"-+", "-", s)`: no two hyphens in a row, and no new characters |
| Slug.SquashCopiesBlock | scraper.py:44 | a block without hyphens is copied unchanged |
| Slug.SquashRunBecomesHyphen | scraper.py:44 | a maximal run of hyphens becomes exactly one hyphen |
| Slug.TrimHyphens | scraper.py:44 | `strip("-")`: the result is a slice of the input, everything cut off is a hyphen, and it neither starts nor ends with a hyphen |
| Slug.TrimHyphensKeeps | scraper.py:44 | `strip("-")` keeps a slug alphabet and the absence of doubled hyphens |
| Slug.SlugifyIdempotent | scraper.py:41-45 | slugifying a slug changes nothing |
| Slug.SlugifyNoAlnum | scraper.py:41-45 | a name with no ASCII letter or digit (empty or punctuation only) gives "unknown" |
| Slug.UnknownIsSlug | scraper.py:45 | the fallback "unknown" is itself a well-formed slug |
| Slug.LowerStripSlug | scraper.py:42 | strip and lower leave a well-formed slug unchanged |
| Slug.SlugFixedPoint | download_flags.py:28-32 | every well-formed slug is its own slug, so `slugify` has the same output contract as `_slugify` |
| FlagIds.FindFlagId | scraper.py:133 | a captured id is a non-empty run of digits |
| FlagIds.MatchHere | scraper.py:133 | a match at the start of the text captures a non-empty run of digits |
| FlagIds.IdAfterDir | scraper.py:133 | after the directory, the capture is the maximal digit run and is followed by `.png` or `.gif` |
| FlagIds.Scan | scraper.py:133 | the scan captures a non-empty run of digits |
| FlagIds.ScanNone | scraper.py:133-135 | the scan finds nothing exactly when no suffix of the text starts with a match |
| FlagIds.ScanSkips | scraper.py:133 | the scan returns the match at the first index where one starts |
| FlagIds.FindFlagIdNone | scraper.py:133-135 | there is no id exactly when the pattern matches at no index |
| FlagIds.FindFlagIdIsFirstMatch | scraper.py:133 | the id is the capture of the leftmost match |
| FlagIds.FindFlagIdOfFlagPath | download_flags.py:64 | the id read back from `flags/<id>.gif` or `flags/<id>.png` is `<id>` |
| FlagIds.MatchHereOfFlagPath | download_flags.py:64 | the pattern matches at the start of `flags/<id>.gif` and captures `<id>` |
| FlagIds.FindFlagIdAfterPrefix | scraper.py:199-202 | prefixing with text that cannot start a match leaves the id unchanged |
| FlagIds.ScanAfterPrefix | scraper.py:199-202 | the scan skips a prefix in which no match can start |
| FileSystem.LStripSlashes | scraper.py:93 | `lstrip("/")`: the result is a suffix of the path and no leading slash is left |
| FileSystem.LStripSlashesCutsSlashes | scraper.py:93 | `lstrip("/")` cuts only slashes |
| FileSystem.WorkspaceKeyOfRooted | scraper.py:93 | joining `/workspace` with a rooted relative path names that same path |
| FileSystem.RawPathNotByName | scraper.py:69 | a raw flag path never equals a by-name path |
| FileSystem.ByNamePathRooted | scraper.py:118 | a by-name path resolves to itself under `/workspace` |
| FileSystem.DownloadFlagGif | scraper.py:67-82 | success returns the raw path, which now holds a non-empty file; failure leaves the disk as it was; nothing but the raw path changes |
| FileSystem.DownloadCachedSkipsFetch | download_flags.py:37-38 | an existing non-empty raw file is returned whatever the network would answer |
| FileSystem.DownloadRejectsBadFetch | download_flags.py:40-50 | a failed fetch or a body under 100 bytes returns None and writes nothing |
| FlagMapping.Get | download_flags.py:147 | a lookup succeeds exactly for the keys present |
| FlagMapping.Put | download_flags.py:69 | `d[k] = v`: the key set gains `k`, `k` reads `v`, other keys are untouched, distinct keys stay distinct, and a new key goes at the end |
| FlagMapping.Replace | scraper.py:506 | overwriting a present key keeps the key set and changes only that key |
| FlagMapping.ToMap | scraper.py:88-89 | the map and the ordered dict have the same keys and values |
| FlagMapping.LoadMapping | download_flags.py:115-124 | a missing file loads as two empty dicts; a missing section loads as an empty dict; present sections are used as stored |
| FlagResolver.Candidate | scraper.py:107-115 | every candidate path lies in the by-name directory |
| FlagResolver.CandidateInjective | scraper.py:115 | different suffix numbers give different candidate paths |
| FlagResolver.FirstFree | scraper.py:109-116 | the loop stops at the first candidate that is absent or mapped to this id, and every candidate before it exists and is not mapped to this id |
| FlagResolver.ChosenIsFresh | scraper.py:110-114 | after the early return, the chosen candidate is always a path that was not on disk |
| FlagResolver.EarlierCandidatesTaken | scraper.py:109-116 | every candidate before the chosen one was already on disk before the download |
| FlagResolver.Resolve | scraper.py:85-127 | None changes nothing; a result is non-empty, becomes the id's path, and exists on disk; a non-empty team name is recorded; other ids and other files are untouched |
| FlagResolver.ResolveDownload | scraper.py:105-124 | after a successful download the result is a non-empty path that becomes the id's path and exists; a non-empty team name is recorded; other ids are untouched and no other file changes |
| FlagResolver.ResolveExisting | scraper.py:92-98 | a mapped path whose file exists is returned without fetching; only the id's name may change, and only to a non-empty team name |
| FlagResolver.ResolveDownloadFails | scraper.py:100-103 | with no usable mapping and no download, the result is None and both maps and the disk are unchanged |
| FlagResolver.ResolveDownloaded | scraper.py:105-124 | after a download, the path is the first candidate `slug`, `slug-2`, … not on disk; it holds a copy of the raw file and becomes the id's path; the name is set only for a non-empty team |
| FlagResolver.ResolveDownloadedShape | scraper.py:105-124 | after a download, the result, maps and disk are the chosen candidate, the id mapped to it, and the raw file copied to it |
| FlagResolver.ResolveIdempotent | scraper.py:85-127 | resolving the same id and team again returns the same path and changes nothing |
| FlagResolver.LocalGifForSrc | scraper.py:130-138 | a result exactly when the URL names a flag id that is mapped, and it is that id's path |
| FlagResolver.NormSrc | scraper.py:189-203 | empty gives None; a mapped flag path wins; otherwise the result is the URL, `https:` + URL or the site origin + URL, never rooted and never `data:` |
| FlagResolver.NormSrcRewrites | scraper.py:196-203 | for an unmapped URL: `data:` gives None, `//x` gives `https://x`, `/p` gives `https://hamariweb.com/p`, anything else is kept |
| FlagResolver.NormSrcKeepsFlagId | scraper.py:199-202 | rewriting an unmapped URL does not change the flag id it names |
| FlagResolver.NormSrcIdempotentUnmapped | scraper.py:189-203 | normalising an unmapped URL twice equals normalising it once |
| FlagResolver.FlagStore.Load | scraper.py:55-64 | the store holds the keys and values of the loaded mapping, and is empty when the file is missing |
| FlagResolver.FlagStore.ChooseByNamePath | scraper.py:106-116 | the `while` loop yields the candidate `FirstFree` picks |
| FlagResolver.FlagStore.EnsureFlagLocal | scraper.py:85-127 | result, new maps and new disk are those of `Resolve` on the old maps |
| FlagResolver.FlagStore.FetchAndCopy | scraper.py:100-124 | the download, the disambiguation loop and the copy give what `Resolve` gives when no existing file is usable |
| Walk.Collect | scraper.py:206-269 | the walk over a page's items yields at most one record per item |
| Walk.CollectOne | scraper.py:257-268 | one item gives its record exactly when it is kept, and the state it leaves |
| Walk.CollectAppend | scraper.py:206-269 | the records of two runs of items are those of the first run, then those of the second walked from the state the first left |
| Walk.CollectAll | scraper.py:257-268 | when every record a step can yield satisfies a property, every collected record does |
| Walk.Select | scraper.py:527-538 | no more items than given |
| Walk.SelectOne | scraper.py:530-538 | one item is selected exactly when it is accepted |
| Walk.SelectAppend | scraper.py:530-538 | selection distributes over concatenation, keeping order |
| Walk.SelectKeeps | scraper.py:530-538 | every selected item is accepted, and every accepted item is selected |
| TeamLinks.ImgRaw | scraper.py:308-310 | `data-src` when it is truthy, else `src`; no image gives None |
| TeamLinks.ScanWith | scraper.py:301-319 | one image per link, only non-empty names |
| TeamLinks.ScanWithNames | scraper.py:304-307 | the names are the non-empty link names, in link order |
| TeamLinks.ScanWithImageAt | scraper.py:308-317 | image `i` is the lookup for link `i` against the state links 0 to i-1 left |
| TeamLinks.ScanWithFirstLink | scraper.py:318-319 | the first link whose non-empty `href` normalises to something sets the link, and later links keep it |
| TeamLinks.ScanWithNoLink | scraper.py:318-319 | when no link can give one, the link stays unset |
| TeamLinks.ScanWithLinkNotEmpty | scraper.py:318-319 | the link is never an empty string |
| Schedule.NodeImage | scraper.py:234-243 | an image is never the empty string; no src gives no image and no change; without an id and a name, or when resolving the id gives nothing, the image is `_norm_src` of the src against the mapping as it was; otherwise it is the resolved path, with the maps and disk `_ensure_flag_local` leaves |
| Schedule.NodeImageResolved | scraper.py:238-242 | after a successful resolution the image is the id's mapped path, the file exists, and the name is recorded |
| Schedule.NodeImageStep | scraper.py:234-243 | updates the shared store as `NodeImage` says |
| Schedule.CardTitleDropsStatus | scraper.py:210-217 | for a `<p>` reading "title status", where the status (possibly several words) occurs only after the title, the title comes back exactly and the status is kept separately |
| Schedule.CardNames | scraper.py:223-233 | team names are non-empty, at most one per node, and every non-empty node name is among them |
| Schedule.CardNamesAppend | scraper.py:223-233 | the names of two runs of nodes are those of the first run, then those of the second; a node contributes its name exactly when it is non-empty |
| Schedule.CardImages | scraper.py:234-243 | one image entry per team node |
| Schedule.CardImagesPrefix | scraper.py:234-243 | the images of the first `k` nodes are the first `k` images |
| Schedule.CardImagesAt | scraper.py:234-243 | image `i` is the lookup for node `i` against the maps and disk that nodes 0 to i-1 left |
| Schedule.CardTeams | scraper.py:244-246 | at most two teams, the first of the names, and all of them when there are at most two |
| Schedule.CardRecord | scraper.py:208-268 | a card is dropped exactly when title, teams and time are all empty; otherwise title, status, time, teams and link come from the card, and the images are the first two node images when there are more than two names, else all of them |
| Schedule.CardImagesCanExceedTwo | scraper.py:243-246 | a card with three nodes, one without a name, keeps two teams and three images |
| Schedule.CardRecords | scraper.py:206-269 | at most one item per card |
| Schedule.CardRecordsKept | scraper.py:257-259 | every item kept from the cards passed the skip test and has at most two teams |
| Schedule.ParseCard | scraper.py:208-268 | produces `CardRecord` and its effect on the store |
| Schedule.ScanTeamNodes | scraper.py:223-243 | the node loop produces the names of `CardNames` and the images and store of `CardImages` |
| Schedule.ParseMatchUpdates | scraper.py:206-269 | the card loop produces `CardRecords` |
| Schedule.ScanLinks | scraper.py:301-319 | the link walk with flag lookups: one image per link, non-empty names, and a non-empty link when one is set |
| Schedule.ScanLinksFirstLink | scraper.py:318-319 | the walk's link is the normalised `href` of the first link whose `href` normalises to something |
| Schedule.ScanLinksNoLink | scraper.py:318-319 | when no link's `href` normalises to something, the walk sets no link |
| Schedule.FirstTwo | scraper.py:303 | at most the first two links, and all of them when there are at most two |
| Schedule.TableTitle | scraper.py:336-342 | the title is "A vs B, type" / "A, type" / "A vs B" / "A" / "type" / "" |
| Schedule.RowStatus | scraper.py:344-347 | "Upcoming" exactly when the date text matches `\bPST\b` or contains "am"/"pm" in any case; otherwise None |
| Schedule.AmsterdamIsUpcoming | scraper.py:346 | a venue that merely contains "am" counts as upcoming |
| Schedule.PstAndTbd | scraper.py:346 | "8:00 PST" is upcoming and "TBD" is not |
| Schedule.RowRecord | scraper.py:291-361 | a row without cells is skipped; a kept item has at most two teams and images, its time from the third cell, its status from that time, and is not empty |
| Schedule.RowRecordFields | scraper.py:301-342 | a kept row's teams are the non-empty names of its first two links in order, its title is built from them and the match cell, its images are the walk's, and its link is the walk's or else the normalised first `href` of the cell |
| Schedule.RowRecordFirstLink | scraper.py:318-319 | a kept row's link is the normalised `href` of the first of its two links that can give one |
| Schedule.RowRecordNoLink | scraper.py:320-324 | when neither link can give one, a kept row's link is the normalised first `href` of its first cell |
| Schedule.RowRecordImageAt | scraper.py:308-317 | image `i` of a kept row is the lookup for link `i` against the maps and disk that links 0 to i-1 left |
| Schedule.RowReadsTwoLinks | scraper.py:301-303 | links after the second do not affect the row |
| Schedule.RowRecordReads | scraper.py:291-361 | a row is read only through its first two links, its first href and its second and third cells |
| Schedule.RowDroppedIff | scraper.py:349-351 | a row is dropped exactly when it has no team names and empty type and date cells |
| Schedule.RowRecords | scraper.py:291-361 | at most one item per row |
| Schedule.RowRecordsKept | scraper.py:349-351 | every item kept from the rows passed the skip test and has at most two teams and two images |
| Schedule.TableRecords | scraper.py:288-289 | no table gives no items and no change |
| Schedule.ParseRow | scraper.py:292-361 | produces `RowRecord` and its effect on the store |
| Schedule.ParseScheduleTable | scraper.py:272-362 | the row loop produces `TableRecords` |
| Schedule.KeySet | scraper.py:379-383 | every item's key is in the key set |
| Schedule.KeySetIsKeys | scraper.py:379-383 | the key set is exactly the set of the items' keys |
| Schedule.Dedupe | scraper.py:385-390 | the output is no longer than the input |
| Schedule.DedupeKeys | scraper.py:385-390 | the output has exactly the input's keys, each once |
| Schedule.DedupeSubseq | scraper.py:385-390 | the output is a subsequence of the input |
| Schedule.DedupeKeepsFirst | scraper.py:385-390 | each output item is the earliest input item with its key |
| Schedule.DedupePrefix | scraper.py:385 | card items come first and survive unchanged; everything after them comes from the table items |
| Schedule.KeySetAppend | scraper.py:385 | the keys of the concatenation are the union of the keys |
| Schedule.KeysCollide | scraper.py:379-383 | two different items, teams `["a-b"]` and `["a","b"]`, share a key and only the first survives |
| Schedule.Schedules | scraper.py:365-393 | merged keys are distinct and are exactly the card keys plus the table keys |
| Schedule.MergeSchedules | scraper.py:376-393 | the `seen` loop computes `Dedupe` of cards followed by table |
| Schedule.ParseSchedules | scraper.py:365-393 | the card pass, then the table pass on the updated store, then the merge |
| Scorecard.TextOf | scraper.py:410-411 | a missing element reads as "" and a present one as its text |
| Scorecard.RestJoined | scraper.py:434 | the joined remaining cells are absent when empty, otherwise non-empty and stripped |
| Scorecard.Stat | scraper.py:444-450 | stat `i` is present exactly when the row has cell `i`, and is its text |
| Scorecard.PlayerName | scraper.py:442 | the name is empty only when both the bold text and the cell text are empty |
| Scorecard.BattingStep | scraper.py:428-460 | an empty row changes nothing; an extras row sets extras, otherwise a total row sets total, and neither adds a batter; any other row adds at most one batter, only a player row, with its name, dismissal and five stats, and changes nothing else; the note is never set |
| Scorecard.BattingOf | scraper.py:421-461 | every batter has a non-empty name and some non-empty stat; the note is never set |
| Scorecard.ExtrasTotalLastWins | scraper.py:432-438 | a later extras or total row overwrites the field and adds no player |
| Scorecard.DidNotBatAddsNobody | scraper.py:451 | a "did not bat" row adds no batter |
| Scorecard.PlayerRowAdds | scraper.py:439-460 | a player row appends exactly its batter |
| Scorecard.AnyStatIff | scraper.py:451 | `any(stats)` holds exactly when some stat cell 1 to 5 is non-empty |
| Scorecard.ParseBattingTable | scraper.py:421-461 | the row loop computes `BattingOf` |
| Scorecard.BowlingStep | scraper.py:468-480 | a row with fewer than 6 cells or an empty name is skipped; otherwise its six cells make one bowler |
| Scorecard.BowlingOf | scraper.py:464-481 | bowlers have non-empty names, at most one per row |
| Scorecard.BowlerRowAdds | scraper.py:469-480 | a row with at least six cells and a non-empty first cell appends its bowler, built from cells 0 to 5 |
| Scorecard.BowlerRowSkipped | scraper.py:469-470 | a row with fewer than six cells or an empty first cell adds nobody |
| Scorecard.BowlingOfAppend | scraper.py:467-481 | the bowlers of two runs of rows are those of the first run, then those of the second, so row order is kept |
| Scorecard.BowlingOfRowAt | scraper.py:467-481 | every row with at least six cells and a name yields its bowler, after the bowlers of the earlier rows and before those of the later rows |
| Scorecard.BowlersFromRows | scraper.py:469-480 | every bowler is the whole six-field bowler (name, overs, maidens, runs, wickets, economy) of some row with at least six cells and a non-empty first cell |
| Scorecard.ParseBowlingTable | scraper.py:464-481 | the row loop computes `BowlingOf` |
| Scorecard.InfoOf | scraper.py:500-506 | the collected info has distinct keys |
| Scorecard.InfoLastWins | scraper.py:500-506 | a key is present exactly when some row has a non-empty key and value; its value comes from the last such row |
| Scorecard.InfoStep | scraper.py:500-506 | one more row sets its key when both key and value are non-empty, and leaves every other key as it was |
| Scorecard.InfoKeys | scraper.py:500-506 | a key is present exactly when some row has that key and a non-empty value |
| Scorecard.InfoLastValue | scraper.py:505-506 | the value of a key comes from the last row that sets it |
| Scorecard.ParseMatchInfo | scraper.py:496-507 | no table gives empty info; otherwise the row loop computes `InfoOf` |
| Scorecard.TitleAndTeams | scraper.py:510-519 | the title is the page title or absent; when " VS " occurs, teams are `[left, right]` exactly when the stripped left part and the stripped right part up to its first comma are both non-empty, otherwise `[]`; no " VS " gives `[]` |
| Scorecard.TitleTeamsRoundTrip | scraper.py:513-518 | "A VS B, rest" gives teams `[A, B]` |
| Scorecard.TitleTeamsNoComma | scraper.py:513-518 | "L VS R", with L and R stripped and non-empty, L without " VS " and R without a comma, gives teams `[L, R]` |
| Scorecard.SplitAtFirstVs | scraper.py:514-515 | the split happens at the first " VS " |
| Scorecard.SplitAtFirstComma | scraper.py:516 | the right side is cut at its first comma |
| Scorecard.Filter | scraper.py:530-538 | no more tables than given |
| Scorecard.FilterKind | scraper.py:530-538 | every selected table is of the kind, and every table of the kind is selected |
| Scorecard.FilterOne | scraper.py:530-538 | one table is selected exactly when it is of the kind |
| Scorecard.FilterAppend | scraper.py:530-538 | selecting from two runs of tables selects from the first, then from the second, so page order is kept |
| Scorecard.BattingWins | scraper.py:535-538 | batting and bowling tables together are no more than the tables, since a header with both words counts as batting only |
| Scorecard.ClassifyTables | scraper.py:527-538 | the loop computes both filters in page order |
| Scorecard.PairInnings | scraper.py:540-550 | one innings per batting table; innings `i` has bowling exactly when `i` is below the number of bowling tables, and then from table `i`; the team is `teams[i % len(teams)]` |
| Scorecard.ParseScorecard | scraper.py:522-564 | title, teams, counts, innings and info as above |
| BatchFlags.AltFallback | download_flags.py:77-78 | an empty name falls back to the image's alt text |
| BatchFlags.LinkSighting | download_flags.py:72-78 | `data-src` before `src`; non-empty link text is the name; empty text gives the image's non-empty alt text, else no name |
| BatchFlags.NodeSighting | download_flags.py:82-90 | `src` only; for non-empty text a non-empty stripped head is the name; otherwise the image's non-empty alt text, else `""` when the text was non-empty and no name when it was empty |
| BatchFlags.LinkSightings | download_flags.py:72-79 | one sighting per link, in order |
| BatchFlags.NodeSightings | download_flags.py:82-91 | one sighting per team node, in order |
| BatchFlags.SightingId | download_flags.py:61-67 | an id only for a present src and name, and it is the pattern's capture |
| BatchFlags.Record | download_flags.py:61-69 | without an id nothing changes; the id is added with the stripped name unless already present; other keys are untouched |
| BatchFlags.RecordGet | download_flags.py:61-69 | after recording, an id reads its old name if it had one, else the new stripped name if the sighting has this id, else nothing |
| BatchFlags.RecordAll | download_flags.py:59-91 | distinct keys, and every key is a digit string |
| BatchFlags.FirstNameForAppend | download_flags.py:68-69 | a later sighting cannot change an id's first name |
| BatchFlags.RecordAllFirstWins | download_flags.py:61-69 | each id maps to the stripped name of its first sighting with that id |
| BatchFlags.BuildIdToNameMap | download_flags.py:53-93 | the two loops record the links, then the nodes |
| BatchFlags.RecordNodes | download_flags.py:82-91 | the card loop continues the recording |
| BatchFlags.WriteStep | download_flags.py:100-111 | no raw file means skip; otherwise the id gets the by-name path for its slug's count, the disk changes only at that file, which gets the raw file's size, the slug's count rises by one, and no other id's path changes |
| BatchFlags.WriteStepCounts | download_flags.py:104-107 | a copying step raises the count of its own slug by one and no other count |
| BatchFlags.WriteStepKeepsRaw | download_flags.py:108-111 | a step keeps every raw image and removes no file |
| BatchFlags.WriteAll | download_flags.py:96-112 | distinct keys; raw files untouched; no file removed |
| BatchFlags.WriteAllKeys | download_flags.py:100-103 | an id gets a path exactly when it is in the input and has a raw file |
| BatchFlags.WriteAllPathsExist | download_flags.py:108-111 | every written path exists afterwards |
| BatchFlags.WriteAllCounts | download_flags.py:104-107 | the final counter of a slug is the number of its ids with raw files |
| BatchFlags.WriteAllNames | download_flags.py:104-111 | the n-th id of a slug gets `base` when n = 1 and `base-n` otherwise |
| BatchFlags.ByNameCollision | download_flags.py:104-107 | names with slugs `b`, `b-2`, `b` give the second and third ids the same path |
| BatchFlags.WriteByNameGifs | download_flags.py:96-112 | the loop computes `WriteAll` |
| BatchFlags.CopyByName | download_flags.py:101-111 | one loop body, given the slug of the name, computes `WriteStep` |
| BatchFlags.DownloadAll | download_flags.py:136-139 | no file is removed |
| BatchFlags.DownloadAllFrame | download_flags.py:136-139 | every path other than the raw images of ids 1 to n keeps its presence and size, and no other path appears |
| BatchFlags.DownloadAllLeavesOthers | download_flags.py:136 | ids above the range are not touched |
| BatchFlags.DownloadAllRaw | download_flags.py:136-139 | for 1 ≤ i ≤ 300 the raw file exists afterwards exactly when it existed or the fetch gave at least 100 bytes |
| BatchFlags.DownloadRange | download_flags.py:136-139 | the loop computes `DownloadAll` for ids 1 to 300 |
| BatchFlags.UpdateAll | download_flags.py:146-148 | every existing id is kept; new names win for ids in both |
| BatchFlags.KeepExisting | download_flags.py:157-162 | the kept entries have distinct keys, all among the existing ids |
| BatchFlags.KeepExistingGet | download_flags.py:157-162 | an existing path is kept exactly when its file exists, and then unchanged |
| BatchFlags.AddMissing | download_flags.py:163-165 | a new path is added only for ids not already kept |
| BatchFlags.MergePaths | download_flags.py:156-165 | the merged path is the existing one when its file exists, else the new one; stale entries are dropped |
| BatchFlags.MergePathsLoops | download_flags.py:156-165 | the two loops compute `MergePaths` |
| BatchFlags.Rebuild | download_flags.py:127-170 | both merged dicts have distinct keys; the names are the merged names |
| BatchFlags.RebuildNames | download_flags.py:143-148 | an id's final name is its first newly scraped name, else its stored name |
| BatchFlags.RebuildPathsExist | download_flags.py:150-165 | every final path names a file on the final disk |
| BatchFlags.RebuildNamedFlagsHavePaths | download_flags.py:150-165 | every named id with a raw file ends up with a path |
| BatchFlags.RebuildMapping | download_flags.py:127-170 | the steps of `main` compute `Rebuild` |

## Left out

- app.py is not part of this model. It is Flask routing and JSON responses, with no decision logic.
- Fetching pages and flag images is left out. `requests.get`, status checks, headers and timeouts are represented only by a `FetchOutcome` per flag id. Within one run the network gives the same answer for the same id.
- BeautifulSoup traversal and CSS selection are left out, as are `_find_content_root`, the heading search with `find_next`, and the location of the match-information table. Their results are the inputs of the model.
- In `build_id_to_name_map`, the card text is split with `re.split(r"\s{2,}|\s+\d+/?\d*", txt)`. The model takes the head of that split as an input (`TeamNameEntry.lead`) and does not implement this pattern.
- The 60-second HTML cache and `time.time()` are left out.
- File contents are left out; a file is only its size:
  - `json.load` and `json.dump`, the atomic write of `_save_flags_mapping`, and `os.makedirs` are not modelled;
  - the shared `FlagStore` maps are what would be written back;
  - `shutil.copyfile` copies the size.
- A malformed `mapping.json` raises in the source. The model assumes the file, when present, holds string-to-string dicts with distinct keys.
- `_load_flags_mapping` reloads from disk when the in-memory mapping is empty. The model loads once, in `FlagStore.Load`.
- `print`, the `available` counter in `main`, and `_has_th_with_text` (never called) are left out.
- Python's `str.lower` and `\b` cover all of Unicode. The model uses ASCII lower-casing and ASCII word characters. Whitespace for `strip` is Python's full `str.isspace` set (`Text.IsSpace`).
- Raw and by-name paths are built by concatenating directory, id and `.gif`. For an id that starts with `/`, `os.path.join` would drop the directory instead; this is not modelled. Scraped ids are digit runs, but ids merged in from a stored `mapping.json` (download_flags.py:147) can be any string.
- FlagResolver.NormSrcIdempotentUnmapped: idempotence is stated only for URLs whose flag id is not mapped. A mapped URL becomes a rooted local path, and a second pass would turn that into a hamariweb.com URL.
- BatchFlags.WriteAll: distinct output paths across ids are not stated, because the source does not guarantee them (`BatchFlags.ByNameCollision`).

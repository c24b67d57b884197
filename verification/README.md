# Dakids: a Dafny model of the scrapers and the Stremio add-on

Dakids is a Stremio add-on that serves children's videos from YouTube. It has three parts:

- `youtube_scraper.py` lists the latest videos of a fixed set of channels with yt-dlp and fetches each video's details. It saves the records that succeed to `meta.json`.
- `scraper-playlist.js` downloads one playlist with yt-dlp and turns each `.info.json` file into a record. It merges the records into `meta.json` and skips ids that are already there.
- `addon.js` loads `meta.json` and answers Stremio's catalog and stream requests. Catalog entries get default fields, and each stream is either a direct URL or a link to YouTube.

This project models the pure logic between the I/O calls as Dafny functions, methods and lemmas. Every external answer is an input value. That covers a yt-dlp listing or fetch that succeeds or raises, the outcome of parsing a file, and the direct URL yt-dlp reports.

Modules:

- `Wrappers`: `Option`.
- `Text`: digits, decimal rendering, suffix tests, and `Split`/`Join` on a separator. `Split` follows JavaScript's `split`.
- `Json`: JavaScript values as the add-on and playlist scraper see them. It defines truthiness, `||`, property reads, `${v}` interpolation, `===`, and `Array.prototype.find` (which can throw on a `null` element).
- `YouTube`: the watch-URL and thumbnail templates.
- `Addon`: `durationToMinutes`, the runtime label, and `formatDate`.
- `AddonRoutes`: the catalog mapping, the stream lookup and the stream reply.
- `PlaylistScraper`: the `.info.json` filter, the new records, the merge with `existing`, and the whole run.
- `ChannelScraper`: record construction with defaults, `get_channel_videos`, watch-URL derivation, the failure-skipping `get_video_details` loop, and `main`'s aggregation and write decision.
- `Interplay`: what the add-on does with the files each scraper writes.

The channel scraper stores the raw YouTube id under `id` and writes no `youtubeId`. The playlist scraper writes `youtubeId` and no `id`. The add-on looks videos up by `id` and builds streams from `youtubeId`. None of the three programs computes a digest-based id. The mismatch in field names between the writers and the reader is stated as lemmas in `Interplay`:

- Every stream request against a channel-scraper file gets a 404.
- Catalog entries built from such a file carry the default name and a poster for the id "undefined".
- Entries written by the playlist scraper carry no `id`, so the only request they answer is `dkundefined`.

## Model

| member | source | states |
|---|---|---|
| Addon.DurationToMinutes | addon.js:40-47 | a missing, empty or non-string duration gives 0; a finite result is never negative |
| Addon.DurationHoursMinutesSeconds | addon.js:42-43 | "h:m:s" with digit parts is h*60 + m + s/60 minutes, exactly |
| Addon.DurationMinutesSeconds | addon.js:42-44 | "m:s" with digit parts is m + s/60 minutes |
| Addon.DurationMinutesOnly | addon.js:42-45 | a single non-empty run of digits is that many minutes |
| Addon.DurationManyParts | addon.js:42-46 | three or more colons (four or more parts) give 0; splitting never gives zero parts, so this is the only way to reach the final `return 0` |
| Addon.DurationNaN | addon.js:42-45 | with at most two colons, the result is NaN exactly when some character is neither a digit nor a colon |
| Addon.RuntimeLabelFloor | addon.js:159 | the runtime label is digits followed by " min", and the number it shows is the floor of the duration |
| Addon.FirstRun | addon.js:51 | finds the leftmost index where 8 digits start, or reports that there is none |
| Addon.FormatDate | addon.js:49-52 | undefined for a missing, empty or non-string date; a string without 8 consecutive digits is unchanged; otherwise only the leftmost run becomes dddd-dd-dd, the result is 2 longer, and the text before and after the run is unchanged |
| Addon.FormatDateUndo | addon.js:51 | deleting the two inserted dashes gives back the original string |
| Addon.FormatDateChanges | addon.js:51 | a non-empty string changes exactly when it contains 8 consecutive digits |
| Addon.FormatDateExample | addon.js:51 | "20250101" becomes "2025-01-01" |
| Text.JoinSplit | addon.js:42 | joining the parts of a split with the separator gives back the string |
| Text.SplitJoin | addon.js:42 | splitting a join of separator-free parts gives back the parts |
| Text.SplitCount | addon.js:42 | a split has one more part than there are separators |
| Text.NatToStringRoundTrip | addon.js:159 | reading back the decimal text of a whole number gives that number |
| AddonRoutes.CatalogMetaOf | addon.js:148-163 | keeps the stored `id` and sets type "channel"; name, poster, description, genres and behaviorHints keep a truthy stored value and otherwise take their fixed defaults (the poster default is the hqdefault thumbnail of `youtubeId`), so all five are always truthy; `released` is formatDate of the stored date; the runtime is the label of durationToMinutes of the stored runtime, and it ends in " min" |
| AddonRoutes.Catalog | addon.js:147-166 | one entry per stored video, same length and order; no catalog exactly when a stored entry is null or undefined, since `video.runtime` throws |
| Json.Find | addon.js:171 | `find` returns the first element whose property passes the test; it misses only when no element passes and none is null; it throws only on a null reached before any hit |
| AddonRoutes.StreamFor | addon.js:169-199 | no reply exactly when the lookup throws; 404 with no streams exactly when no video matches or the match has no truthy `youtubeId`; otherwise one stream from the first matching video: without a direct URL it carries the watch URL, notWebReady, no bingeGroup and the title "`name || 'Video'` (Apri su YouTube)"; with one it carries that URL, not notWebReady, bingeGroup = `youtubeId` and the title `name || "Video"` |
| AddonRoutes.FindVideoById | addon.js:171 | a video stored under string id x is found when asked for x and when asked for "dk"+x, at that video or at an earlier one |
| AddonRoutes.MissingIdAnswersDkUndefined | addon.js:171 | a stored video without an `id` answers the request "dkundefined" |
| PlaylistScraper.InfoJsonFiles | scraper-playlist.js:33 | keeps exactly the names ending in ".info.json", in their original order and as often as the listing holds each |
| PlaylistScraper.InfoJsonFilesCounts | scraper-playlist.js:33 | every name ending in ".info.json" is kept exactly as many times as the listing holds it, and no other name is kept |
| PlaylistScraper.InfoJsonFilesIdempotent | scraper-playlist.js:33 | filtering the filtered list changes nothing |
| PlaylistScraper.NewMetas | scraper-playlist.js:34-42 | one record per info file, in file order, with youtubeId = data.id, title = data.title, poster = hqdefault thumbnail of the id, and channel = the channel argument; nothing when a file fails to parse or holds null |
| PlaylistScraper.Merge | scraper-playlist.js:54-59 | `existing` is a prefix of the result and `existing` ≤ result ≤ `existing` + new records in length; without nulls in `existing` the merge always succeeds |
| PlaylistScraper.StepIffFresh | scraper-playlist.js:55-58 | once the earlier records are merged, the next record is pushed exactly when it is fresh: the first existing entry with a `===` key is falsy, or no existing entry and no earlier record has a `===` key; otherwise the list is unchanged |
| PlaylistScraper.MergeAppendsFresh | scraper-playlist.js:54-59 | for any `existing` without nulls, falsy entries included, the result is `existing` followed by exactly the fresh records, in their order; every new record's `youtubeId` then occurs in the result |
| PlaylistScraper.MergeKeepsDistinct | scraper-playlist.js:55-58 | if `existing` holds only truthy entries and no two `===` keys, neither does the result |
| PlaylistScraper.MergeCovered | scraper-playlist.js:55-58 | records whose primitive ids are already present leave a list of truthy entries unchanged |
| PlaylistScraper.MergeIdempotent | scraper-playlist.js:54-59 | merging the same records into the result a second time changes nothing (primitive ids, truthy existing entries) |
| PlaylistScraper.FalsyEntryPushes | scraper-playlist.js:56-57 | a falsy entry such as 0 does not block a record without an id: the record is pushed after it, and a second merge pushes it again |
| PlaylistScraper.MergeAtNullAddsNoIds | scraper-playlist.js:54-59 | with a null in `existing`, the merge either throws or adds only records without an id, pushed past a falsy entry before the null |
| PlaylistScraper.MergeAtNullUnchanged | scraper-playlist.js:54-59 | with a null in `existing` and no falsy entry, the merge either throws or leaves the list as it was |
| PlaylistScraper.Run | scraper-playlist.js:26-71 | nothing is written when the download fails or some info file fails to parse or holds null; after a good download with good info files and no null in meta.json something is written; when nothing is written, one of those three causes holds; whatever is written starts with the existing entries and grows by at most the number of info files |
| PlaylistScraper.RunWrites | scraper-playlist.js:33-61 | when every info file parses to an object and `meta.json` has no null (falsy entries allowed), the written list is the existing entries plus the fresh records, and it covers every downloaded id |
| PlaylistScraper.RunUnreadable | scraper-playlist.js:45-51 | an unparseable `meta.json` is treated like a missing one, and the rewritten file then has no duplicate ids |
| ChannelScraper.ChannelVideos | youtube_scraper.py:14-20 | the listing's `entries`, or `[]` when the key is absent or the listing raised |
| ChannelScraper.RecordOf | youtube_scraper.py:36-47 | each field takes the info value when its key is present, even when that value is None; otherwise it takes 'No Title', '', 0, '20250101', 'Unknown Channel' or '0:00'; the thumbnail is the maxresdefault image of the id ('' by default) |
| ChannelScraper.WatchUrls | youtube_scraper.py:146 | at most one URL per listed item, and every item with an `id` has its watch URL in the list |
| ChannelScraper.WatchUrlsSingle | youtube_scraper.py:146 | an item with an `id` gives its watch URL; an item without one gives nothing |
| ChannelScraper.WatchUrlsConcat | youtube_scraper.py:146 | the URLs of a concatenated listing are the concatenated URLs, so listing order is kept |
| ChannelScraper.WatchUrlsFromItems | youtube_scraper.py:146 | every URL is the watch URL of some listed item that has an `id` |
| YouTube.WatchUrlInjective | youtube_scraper.py:146 | distinct ids give distinct watch URLs |
| ChannelScraper.Successes | youtube_scraper.py:28-55 | the successful records number at most the fetch attempts |
| ChannelScraper.SuccessesAfterFailure | youtube_scraper.py:49-53 | a fetch that raises adds no record: the count after it equals the count before |
| ChannelScraper.SuccessesConcat | youtube_scraper.py:31-53 | the records of consecutive fetch runs are the concatenation of each run's records |
| ChannelScraper.SuccessesAllFetched | youtube_scraper.py:31-49 | with no failures, record i is built from fetch i |
| ChannelScraper.VideoDetails | youtube_scraper.py:22-55 | the loop returns exactly the successful records in URL order, never more than there are URLs |
| ChannelScraper.Scrape | youtube_scraper.py:134-171 | the collected list is the channels' records in channel order; `meta.json` is written exactly when that list is non-empty, and with exactly that list |
| ChannelScraper.EmptyChannelContributesNothing | youtube_scraper.py:140-144 | a channel whose listing is empty, None, missing or raised contributes no record |
| ChannelScraper.AggregateBound | youtube_scraper.py:136-151 | the collected list is never longer than the number of URLs visited |
| Interplay.RecordJsonMissingKeys | youtube_scraper.py:36-47 | a saved channel-scraper record has no `youtubeId`, `name`, `poster`, `runtime` or `released` key, and its `id` is the video id |
| Interplay.ScrapedCatalog | addon.js:148-163 | the catalog of a channel-scraper file keeps each id but shows the default name, the poster for the id "undefined", no release date and "0 min" |
| Interplay.ScrapedStreamsNotFound | addon.js:171-175 | every stream request against a channel-scraper file is answered 404 with no streams |
| Interplay.PlaylistEntryAnswers | addon.js:171 | a playlist-scraper entry has no `id` and answers only the request "dkundefined" |

## Left out

- HTTP plumbing is not modelled: Express routing, CORS, status codes beyond the 404/200 choice, the manifest (addon.js:123-144) and the server start. The home page HTML (addon.js:73-121) is left out too; it previews the first 6 stored videos (addon.js:104).
- External processes are not modelled: the cookie file, the yt-dlp version probe and `getDirectUrl` (addon.js:12-26, 54-70), and the download by `execSync` (scraper-playlist.js:26-30). Their results enter as inputs: `directUrl` and `downloaded`.
- The `meta.json` read at addon.js:28-37 is I/O. The loaded list is the `videos` input. Falling back to `[]` on a read error mirrors `PlaylistScraper.ExistingEntries`.
- proxy.js is a headless-browser scrape behind an HTTP route and is not part of this model.
- yt-dlp's option dictionaries and behaviour are not modelled, including `max_videos`/`playlistend`. Listings and per-video fetch outcomes are inputs. An `extract_info` result of `None` is modelled as a raised exception, since both end the same way.
- The channel URL list (youtube_scraper.py:61-132) is configuration. Each channel appears only as its listing outcome.
- File writes and deletes, directory creation, command-line argument checks (scraper-playlist.js:6-12), JSON serialisation and console output are not modelled. That includes the `Counter` statistics (youtube_scraper.py:162-168).
- Addon.DurationToMinutes: `Number(part)` is modelled only for ASCII digit strings, with the empty string read as 0. Any other part is NaN. JavaScript also accepts surrounding whitespace, signs, decimal points, exponents and hex forms. Arithmetic is exact over reals, with no floating-point rounding.
- Json.Value numbers are integers. Fractional numbers and NaN stored in `meta.json` are not modelled.
- Json.StrictEquals treats `===` on two objects or arrays as always false. That is reference identity for objects that each come from a separate `JSON.parse`, which is the only way they arise here.
- PlaylistScraper.MergeIdempotent assumes primitive ids and truthy entries in `existing`. With an object id (never produced by yt-dlp), a second merge appends the record again. A falsy entry (`0`, `false`, `""`) reads an `undefined` key, so a record without an id is pushed past it on every merge. `FalsyEntryPushes` shows this.
- PlaylistScraper.MergeKeepsDistinct assumes every entry of `existing` is truthy, as the objects `meta.json` holds are. A falsy entry's `undefined` key matches a record without an id, and that record is still pushed. The result then holds two `undefined` keys.
- PlaylistScraper.MergeAtNullUnchanged assumes no falsy entry in `existing`. Without that assumption, MergeAtNullAddsNoIds states what can be added.
- PlaylistScraper.MergeCovered assumes every entry of the list is truthy. A falsy entry can cover a record's `undefined` id without stopping the push.
- A top-level `meta.json` value that is not an array is not modelled. In JavaScript, `[...existing]` throws on most such values and spreads a string into characters.
- ChannelScraper: info and listing values are typed as yt-dlp documents them: strings, integers, or None. A listing entry that is not a dictionary is not modelled. In Python, `'id' in v` would raise there, outside any `try`.

# Lookmovie downloader core, modelled in Dafny

The repository is a command-line program that downloads movies and TV series
from the Lookmovie streaming site. The user types a query. The program searches
the site's movie and show APIs and scrapes the chosen title's page for its
numeric id, access hash and expiry. For a series it groups the episodes by
season. It then asks the site's security API for each item's HLS playlist
(`m3u8`) and English subtitle, and downloads the playlist's `.ts` segments into
one file.

This project models the core of that pipeline:

* `movies_n_series.dfy` (module `MoviesNSeries`) covers three parts:
  * how a title is turned into a file name;
  * the download-quality check of `Config.json`;
  * the season/episode dialog: the values it offers, and how the ticked
    entries become a `season -> episodes` dictionary.
* `lookmovie.dfy` (module `Lookmovie`) covers the provider:
  * searching movies and shows;
  * reading the scraped page information, including grouping a series'
    episodes by season;
  * choosing the subtitle and stream from the security API's answer, for a
    movie or for every episode of a series.
* `m3u8_downloader.dfy` (module `M3u8Downloader`) covers the downloader:
  * parsing a playlist into segment URLs;
  * retrying each segment until it downloads;
  * writing the segments in order into the `.ts` file, and removing that
    file after an ffmpeg remux.
* Support modules:
  * `basics.dfy`: `Option` and `Result`, Python's negative indexing, and
    concatenation of byte chunks.
  * `content.dfy`: the `Episode`, `Movie` and `Series` classes.
  * `ordered_dict.dfy`: an insertion-ordered Python `dict` with `setdefault`
    and `setdefault(...).append`.
  * `text.dfy`: Python's `split`, `strip`, `lower`, `int()` on strings,
    `re.sub` removing a character class, `in` on strings, and the `netloc`
    of `urlparse`.

How the model represents the outside world:

* HTTP requests are values handed to the operations: a reply or an error
  for each request, and for segments the sequence of attempts the server
  answers.
* The thread pool is a completion order.
* The dialog's answer is a parameter.
* `os.environ['FFMPEG']` is an `Option<string>`.

Objects the program updates in place are Dafny classes:

* `Episode`, `Movie` and `Series`, whose fields `update_info` and
  `set_m3u8_n_subtitle` assign;
* the output file `TsFile`.

The methods on these objects state the new state in their contracts, using
`old`, `fresh` and `unchanged`. These are the class methods, the info updates
and the link setters.

## Model

| member | source | states |
|---|---|---|
| MoviesNSeries.SanitizeSpec | moviesNseries.py:105 | the sanitised title holds none of the characters `\ / * ? : " < > \|`, and keeps every other character with its multiplicity |
| MoviesNSeries.SanitizeAppend | moviesNseries.py:196 | removing the forbidden characters distributes over concatenation, so each character is judged on its own |
| MoviesNSeries.SanitizeClean | moviesNseries.py:105 | a title without forbidden characters is left exactly as it is |
| MoviesNSeries.SanitizeIdempotent | moviesNseries.py:196 | sanitising an already sanitised file name changes nothing |
| MoviesNSeries.SanitizeTitle | moviesNseries.py:105 | the movie's or series' title becomes its sanitised form; every other field (id, hash, expiry, frame link, links, seasons) is untouched |
| MoviesNSeries.SanitizeMovieTitle | moviesNseries.py:105 | a movie's title field is replaced by its sanitised form |
| MoviesNSeries.SanitizeSeriesTitle | moviesNseries.py:105 | a series' title field is replaced by its sanitised form |
| MoviesNSeries.PyInt | moviesNseries.py:333 | `int()` of a JSON integer is that integer; of a string it succeeds exactly when the string is a decimal integer; a string that is not raises ValueError, any other value TypeError |
| MoviesNSeries.ReadQuality | moviesNseries.py:330-352 | of the `try` block and its handlers: the block passes iff the configuration is a JSON object whose `download_quality` converts to 1080, 720 or 480, and then that value is the quality; FileNotFoundError exits with "Config.json not found!"; a ValueError (text that is not JSON, a string that is not an integer) or a failed `assert` exits with the invalid-quality message; a missing key raises KeyError and a value `int()` cannot take raises TypeError, which no handler catches |
| MoviesNSeries.BuildDialogValues | moviesNseries.py:228-236 | the loop over the seasons builds exactly the dialog list: per season one whole-season entry followed by one entry per episode, indexed by episode number minus one |
| MoviesNSeries.BuildSeasonItems | moviesNseries.py:230-236 | one season's block: the `(season, range(count))` entry captioned `Season n`, then its episodes in list order |
| MoviesNSeries.ItemShape | moviesNseries.py:228-236 | every dialog value is either a whole-season entry whose count is that season's episode count, or an episode entry whose index is the one the indexing scheme gives for an episode of that season |
| MoviesNSeries.SeasonItemPlaced | moviesNseries.py:230-235 | every entry of one season's block is well placed in the sense above |
| MoviesNSeries.GetDownloadChoice | moviesNseries.py:247-269 | a cancelled dialog gives the cancellation, an empty selection gives the empty list, and otherwise the result is the merge of the selection: the merged dictionary or the IndexError an out-of-range episode index raises |
| MoviesNSeries.CollectWholes | moviesNseries.py:250-253 | the whole-season entries of the selection, in selection order |
| MoviesNSeries.RemoveWholes | moviesNseries.py:255-256 | removing each whole-season entry once leaves the selection minus exactly those entries, order kept |
| MoviesNSeries.WholesRemoved | moviesNseries.py:254-257 | after the whole seasons are removed, what is left is exactly the selection's episode entries, still without duplicates |
| MoviesNSeries.DropSinglesOfWholes | moviesNseries.py:258-262 | the episode entries that remain are exactly those whose season was not chosen whole, in selection order |
| MoviesNSeries.DropSeason | moviesNseries.py:259-262 | one whole season's pass removes exactly the episode entries of that season from the remaining list |
| MoviesNSeries.SinglesKept | moviesNseries.py:254-262 | the two removal passes together keep exactly the episode entries of seasons not chosen whole |
| MoviesNSeries.AddWholeSeasons | moviesNseries.py:263-265 | the `setdefault` loop puts every whole season's full episode list into a fresh dictionary, in selection order |
| MoviesNSeries.AddSinglePicks | moviesNseries.py:266-268 | the `setdefault(...).append` loop appends each kept episode to its season, stopping at the first index that is out of range |
| MoviesNSeries.Merge | moviesNseries.py:250-268 | the merge of a dialog selection either gives the dictionary or fails, and its only failure is the IndexError of an out-of-range episode index |
| MoviesNSeries.MergeFails | moviesNseries.py:266-268 | the merge succeeds iff every kept episode entry's index is a valid Python index into its season; otherwise it fails with IndexError |
| MoviesNSeries.MergeKeys | moviesNseries.py:263-268 | the merged dictionary starts with the whole seasons, in the order they were ticked |
| MoviesNSeries.MergeValid | moviesNseries.py:263-268 | the merged dictionary is a well-formed ordered dictionary (no repeated key, keys and entries agree) |
| MoviesNSeries.MergeSeasons | moviesNseries.py:247-269 | a season is in the result iff it was chosen whole or one of its episodes was ticked (and survived the removal) |
| MoviesNSeries.MergeWholeSeason | moviesNseries.py:263-265 | a season chosen whole maps to its complete episode list, whatever individual episodes of it were also ticked |
| MoviesNSeries.MergeSingleSeason | moviesNseries.py:266-268 | any other season maps to the episodes its ticked entries point at, in selection order |
| MoviesNSeries.KeptAvoidsWhole | moviesNseries.py:258-262 | no kept episode entry belongs to a season chosen whole |
| MoviesNSeries.DialogPicks | moviesNseries.py:237-246 | a duplicate-free selection of offered dialog values meets the merge's preconditions |
| MoviesNSeries.ByPositionMergeSucceeds | moviesNseries.py:233 | with entries indexed by list position, every selection from the dialog merges without error, and each kept episode entry resolves to the episode at its position, the one whose caption the entry carries |
| MoviesNSeries.OfferedResolves | moviesNseries.py:233 | indexed by position, an offered episode entry resolves, and every dialog entry with that value is captioned with the episode it resolves to |
| MoviesNSeries.NumberPastTheEnd | moviesNseries.py:233 | a season holding only episode 2 offers the index 1, which is past the end of its one-element list |
| MoviesNSeries.NumberPastTheEndFails | moviesNseries.py:268 | ticking that entry makes the merge fail with IndexError |
| MoviesNSeries.NumberZeroWraps | moviesNseries.py:233 | an episode numbered 0 is offered as index -1, which Python resolves to the season's last episode |
| Lookmovie.Search | providers/lookmovie.py:81-97 | an HTTP error on either search returns the empty list; otherwise the result is every movie result then every show result, each a new object built from the title, the `int` of the year and the view link plus slug, with empty id, hash, expiry, frame link and links (and no seasons for a series), no object listed twice; a year that is not an integer raises ValueError |
| Lookmovie.Collect | providers/lookmovie.py:91-97 | the two loops over the decoded search results succeed exactly when every year parses, and then return every movie result and then every show result, each a new object built from its record, no object listed twice; otherwise they raise ValueError |
| Lookmovie.AddMovies | providers/lookmovie.py:91-93 | appends one new Movie per record after the earlier results, each with id 0 and empty hash, expiry, frame link, m3u8 and subtitle, and keeps the results free of repeated objects; or raises ValueError on a bad year |
| Lookmovie.NewMovie | providers/lookmovie.py:92-93 | a Movie made from a search record carries its title, year and link, and nothing from the player page yet |
| Lookmovie.AddSeries | providers/lookmovie.py:94-96 | appends one new Series per record with no seasons and empty hash, expiry and frame link, and keeps the results free of repeated objects; or raises ValueError on a bad year |
| Lookmovie.NewSeries | providers/lookmovie.py:95-96 | a Series made from a search record carries its title, year and link, an empty season dictionary, and nothing from the player page yet |
| Lookmovie.GroupBySeason | providers/lookmovie.py:159-166 | the dictionary has one key per season in first-appearance order; each season's list holds new Episodes made from that season's records, in record order and without links; no Episode is listed twice |
| Lookmovie.SeasonOrderSpec | providers/lookmovie.py:164 | the season keys have no duplicates, are exactly the seasons some record names, and a season not listed has no records |
| Lookmovie.GroupingCoversRecords | providers/lookmovie.py:159-165 | every scraped record lands in exactly one season list: the list lengths add up to the number of records |
| Lookmovie.GroupStep | providers/lookmovie.py:164-165 | one `setdefault(...).append` keeps the grouping exact for the records seen so far |
| Lookmovie.LocatedDistinct | providers/lookmovie.py:164-165 | when every listed Episode has a single recorded season and position, no Episode is listed at two places |
| Lookmovie.UpdateMovieInfo | providers/lookmovie.py:113-157 | a page that fails to load changes nothing and returns False; otherwise the frame link is set (stripped); without the script nothing more changes and False is returned; with it, id, hash (stripped) and expiry are set and the update succeeds |
| Lookmovie.UpdateSeriesInfo | providers/lookmovie.py:113-166 | the same for a series, whose seasons become the exact grouping of the scraped episode records, made of new, pairwise distinct Episodes with empty m3u8 and subtitle links |
| Lookmovie.AccessPathsStartWithSlash | providers/lookmovie.py:188-190 | both security API paths start with `/`, so they never change the host of the link |
| Lookmovie.AccessUrlHost | providers/lookmovie.py:187-190 | the movie and episode access links go to the same host as the page's frame link |
| Lookmovie.SubtitleChoice | providers/lookmovie.py:197-200 | the subtitle becomes the domain plus the file of the first subtitle whose language is English in any letter case, and stays as it was when there is none |
| Lookmovie.SelectSubtitle | providers/lookmovie.py:222-226 | the loop with `break` picks the subtitle that SubtitleChoice describes |
| Lookmovie.StreamChoice | providers/lookmovie.py:201-208 | the first stream whose key names the quality wins; a key that is not a number before any match raises ValueError; with no match, the current link is kept if set, else the first stream's link, and IndexError when there is no stream |
| Lookmovie.StreamLabelQuality | providers/lookmovie.py:202 | the label test `int(stream.replace('p', '').strip())` reads a label such as `1080p` as the number it spells |
| Lookmovie.SelectStream | providers/lookmovie.py:227-234 | the loop with `break` and the fallback compute StreamChoice |
| Lookmovie.AccessStep | providers/lookmovie.py:191-210 | an HTTP error gives "HTTP Error" and a refusal gives the API's message, both with links unchanged; success sets the m3u8 link to one of the streams (or keeps a set one) and the subtitle to one of the subtitles (or keeps it) |
| Lookmovie.HandleAccess | providers/lookmovie.py:191-210 | the movie branch's handling of one security API answer computes AccessStep |
| Lookmovie.SetMovieM3u8NSubtitle | providers/lookmovie.py:187-210 | the movie's links are the result of one access step against the link built from its frame link's host, id, hash and expiry; nothing else of the movie changes |
| Lookmovie.RunStepsStopsAtFirstFailure | providers/lookmovie.py:212-236 | the run over the episodes succeeds iff every episode's step succeeds, and then every episode has its step's links; otherwise it stops at the first failing episode, and the episodes after it keep their links |
| Lookmovie.Run | providers/lookmovie.py:213-234 | the episode loop, one request per listed episode starting from the links it holds at that moment, stopping at the first failure; the state afterwards holds links for exactly the episodes it held before |
| Lookmovie.RunFrame | providers/lookmovie.py:213-234 | an episode the loop does not list keeps its links |
| Lookmovie.RunAppend | providers/lookmovie.py:213-214 | looping over one list then another is looping over the first and, if every request in it succeeded, then over the second |
| Lookmovie.RunOfDistinct | providers/lookmovie.py:213-234 | when no episode is listed twice, the loop's outcome and each episode's final links are those of RunSteps over each episode's answer to its original links |
| Lookmovie.RunRevisit | providers/lookmovie.py:214-234 | an episode listed twice in a row is asked twice, the second request starting from the links the first wrote, and the second answer's links are the ones kept |
| Lookmovie.UpdateEpisode | providers/lookmovie.py:215-234 | the body of the episode loop sets the episode's links and the outcome to that episode's access step against its current links |
| Lookmovie.SeasonStep | providers/lookmovie.py:213-214 | running one season of the dictionary and then the seasons after it is running all episodes from that season on |
| Lookmovie.UpdateNextSeason | providers/lookmovie.py:213-234 | one pass of the season loop advances the run by exactly that season's episodes, or ends it with the run's outcome |
| Lookmovie.UpdateSeason | providers/lookmovie.py:214-234 | one season's loop leaves every episode's links and the outcome as the run of its episodes' requests says, an episode listed twice being asked twice |
| Lookmovie.UpdateSeasons | providers/lookmovie.py:213-234 | the nested loops leave every episode's links and the outcome exactly as the run over the flattened episode lists says, repeated episodes included |
| Lookmovie.SetSeriesM3u8NSubtitle | providers/lookmovie.py:211-236 | the series' episodes, in dictionary order and with repeats as listed, end with the links and outcome of the run of episode-access requests against the frame link's host, id, hash and expiry |
| M3u8Downloader.BaseUrl | utility/m3u8_downloader.py:28 | the base ends in `/` and is the URL up to and including its last `/`, or the URL plus `/` when it has none |
| M3u8Downloader.GetSegments | utility/m3u8_downloader.py:10-40 | a failed status fails; a playlist containing `HASH` fails; otherwise the result is the parsed segment list, one URL per comma of the playlist |
| M3u8Downloader.SegmentCount | utility/m3u8_downloader.py:35-37 | splitting on commas and dropping the header leaves as many entries as the text has commas |
| M3u8Downloader.SegmentUrlShape | utility/m3u8_downloader.py:38-39 | every segment URL is the base URL, then a name with no dot, comma or newline, then `.ts` |
| M3u8Downloader.ParseLayout | utility/m3u8_downloader.py:35-39 | a playlist laid out as a header then comma-separated `name.suffix` entries parses to exactly base + name + `.ts` for each entry, in order |
| M3u8Downloader.GetResponse | utility/m3u8_downloader.py:55-68 | the retry loop returns the first attempt whose status passes, after failing attempts only |
| M3u8Downloader.FetchAll | utility/m3u8_downloader.py:81-82 | whatever order the workers finish in, the bodies come out in segment order, each the first good response for its URL |
| M3u8Downloader.TsFile.Open | utility/m3u8_downloader.py:83 | opening with `wb` leaves an existing, empty file |
| M3u8Downloader.TsFile.Write | utility/m3u8_downloader.py:86 | writing appends the chunk to the open file |
| M3u8Downloader.TsFile.Remove | utility/m3u8_downloader.py:98 | `os.remove` leaves no file |
| M3u8Downloader.StartDownload | utility/m3u8_downloader.py:80-98 | the download fails iff the playlist request fails or the playlist is protected; on success the `.ts` file holds the concatenation of all segment bodies in playlist order, and it is remuxed and removed exactly when `FFMPEG` is `1` |
| M3u8Downloader.EmptyPlaylist | utility/m3u8_downloader.py:35-40 | a playlist without commas yields no segments and an empty file |
| Text.JoinSplit | utility/m3u8_downloader.py:36 | joining the pieces of `split` with the separator gives back the text |
| Text.SplitJoin | utility/m3u8_downloader.py:36 | splitting a join of separator-free pieces gives back the pieces |
| Text.SplitCount | utility/m3u8_downloader.py:36 | `split` gives one more piece than there are separators |
| Text.LowerIsEnglish | providers/lookmovie.py:198 | `lower() == 'english'` holds exactly for the seven letters of "english" in any mix of cases |
| Text.IntOfDecimal | providers/lookmovie.py:93 | `int()` of an integer's decimal spelling, as read for a year, gives back the integer |
| Text.NetlocOfHttps | providers/lookmovie.py:187 | the `netloc` of `https://host/...` is the host |
| Text.StripShape | providers/lookmovie.py:122 | `strip()` returns a slice of the text with no whitespace at either end, whitespace being Python's set for `str` (ASCII blanks, the separators `\x1c`-`\x1f`, `\x85`, `\xa0` and the Unicode spaces and line separators) and the removed ends being all whitespace |
| OrderedDict.SetDefault | providers/lookmovie.py:164 | `setdefault` adds a new key last with the default value and leaves an existing key and every other key as they were |
| OrderedDict.AppendTo | moviesNseries.py:266-268 | `setdefault(k, []).append(x)` puts `x` at the end of the list under `k`, adding `k` last if it is new, and changes no other key |

## Left out

- HTTP and JSON decoding are not modelled: each request's outcome is a parameter, either a decoded body or an HTTP error. `requests.ConnectionError`, `requests.Timeout` and a reply that is not JSON (a ValueError from `resp.json()`) are not HTTP errors: in the source they escape `search` (providers/lookmovie.py:82-90) and `set_m3u8_n_subtitle` (providers/lookmovie.py:191-236) uncaught and end the program, where an HTTP error returns `[]` or `(False, 'HTTP Error')`. The model has no outcome for them.
- Selenium, the reCAPTCHA click and js2py are not modelled: the scraped page is a `Scrape` value (page error, no script element, or the script's decoded fields).
- BeautifulSoup is not modelled either: the frame link is part of the `Scrape` value.
- The progress bar, `print`, `time.sleep`, `tqdm` and the coloured messages are left out, because they have no effect on the state.
- `KeyboardInterrupt` during a download is left out.
- The ffmpeg subprocess and the `.mp4` file it writes are not modelled. The `os.remove` of the `.ts` file that follows it (utility/m3u8_downloader.py:98) is.
- M3u8Downloader.StartDownload: the removal of the `.ts` file when `FFMPEG` is `1` holds where `subprocess.run` accepts one command string without `shell=True`, that is on Windows. On POSIX the call at utility/m3u8_downloader.py:97 raises FileNotFoundError, so `os.remove` (line 98) is never reached and the exception escapes `start_download`.
- The ffmpeg probe at start-up is left out.
- `os.mkdir('Downloads')` and `os.chdir` are left out.
- The prompt_toolkit dialog and the menus are not modelled: the dialog's answer is a parameter.
- The program's outer retry loops and its top-level control flow are left out.
- Concurrency is not modelled: the thread pool is a completion order of the segment downloads, and `executor.map` yields results in input order.
- The network is a fixed function from URL to replies, so repeated requests for the same URL are not independent draws.
- Exceptions that the scraped data could raise are left out: missing keys, non-integer ids, episodes or seasons. The scraped fields are modelled as already converted.
- Search records are modelled as parsed fields: a year whose `int()` succeeds or fails.
- M3u8Downloader.GetResponse: requires that some attempt eventually succeeds, because the source loops forever otherwise and a method must terminate.
- M3u8Downloader.StartDownload: requires that every segment eventually downloads, for the same reason.
- MoviesNSeries.PyInt: JSON floats and booleans are not modelled. `int(1080.0)` and `int(True)` convert in Python. `JsonOther` stands for lists, objects and `null`, which raise TypeError.
- MoviesNSeries.ReadQuality: a configuration whose top-level value is not an object is not modelled.
- MoviesNSeries.ReadQuality: models only the `try` block at moviesNseries.py:330-352. Config.json is read earlier, when moviesNseries.py imports its modules (lines 15-18): utility/content.py:5-8 and utility/search_suggestions.py:6-9 run `json.load` on it and read `TMDB_API_KEY`. So a missing file, text that is not JSON, a missing `TMDB_API_KEY` or a top level that is not an object ends the program with an uncaught exception before the block runs. The `NoFile` and `NotJson` exits of ReadQuality are therefore never reached in the program; the import-time reads are not part of this model.
- MoviesNSeries.GetDownloadChoice: the merged dictionary holds a whole season's list by value. In the source it is the same list object as in the series, an aliasing this model does not capture.
- Text.IntOf: Python's `int()` also accepts underscores between digits and non-ASCII digits. The model accepts surrounding whitespace, an optional sign and ASCII digits. IntOf is used for stream labels, search years and the configured quality.

## Findings

| source | as written | input that shows it | evidently intended | confidence | as-written member | corrected member |
|---|---|---|---|---|---|---|
| moviesNseries.py:233 and moviesNseries.py:268 | an episode entry's value is `(season, episode.number-1)`, later used as an index into the season's list | a season whose list holds only episode 2 (the site lacks episode 1): the entry is `(s, 1)` and ticking it raises IndexError; a season starting with episode 0: the entry is `(s, -1)` and downloads the season's last episode instead; ticking both on a season `[a (number 2), b (number 0)]` lists b twice in the merged season, so its access request is made twice and the second answer wins (Lookmovie.RunRevisit) | the entry should carry the episode's position in its season's list | medium, not executed | MoviesNSeries.NumberPastTheEndFails | MoviesNSeries.ByPositionMergeSucceeds |

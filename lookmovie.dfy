/**
 * The Lookmovie provider (providers/lookmovie.py): the search request, the
 * grouping of a series' episodes into seasons once the player page's data is
 * known, and the lookup of the stream and subtitle links of a movie or of
 * every episode of a series.
 *
 * Every HTTP request is a function from the requested URL to a `Reply`: an
 * HTTP error status, or the decoded JSON body. Scraping the player page with
 * a browser is not modelled; its outcome is an input (`Scrape`).
 */
module Lookmovie {
  import opened Basics
  import opened Text
  import opened OrderedDict
  import opened Content

  const Name := "Lookmovie"
  const BaseLink := "https://lookmovie2.to"
  const MovieSearchLink := BaseLink + "/api/v1/movies/do-search/?q="
  const SeriesSearchLink := BaseLink + "/api/v1/shows/do-search/?q="
  const MovieLink := BaseLink + "/movies/view/"
  const SeriesLink := BaseLink + "/shows/view/"

  /** A request after `raise_for_status()`: an HTTP error, or the JSON body. */
  datatype Reply<T> = HttpError | Body(json: T)

  // ---------------------------------------------------------------------------
  // search
  // ---------------------------------------------------------------------------

  /** One element of the `result` list of a search response. */
  datatype SearchRecord = SearchRecord(title: string, year: string, slug: string)

  type SearchApi = string -> Reply<seq<SearchRecord>>

  predicate YearsParse(records: seq<SearchRecord>)
  {
    forall i {:trigger IntOf(records[i].year)} :: 0 <= i < |records| ==> IntOf(records[i].year).Some?
  }

  /** `movie` is the Movie built from search record `rec`, with no page information and no links yet. */
  predicate MovieFrom(movie: Movie, rec: SearchRecord)
    reads movie
  {
    && IntOf(rec.year).Some?
    && movie.title == rec.title && movie.year == IntOf(rec.year).value
    && movie.link == MovieLink + rec.slug
    && movie.id == 0 && movie.hash == "" && movie.expiry == 0 && movie.frameLink == ""
    && movie.m3u8 == "" && movie.subtitle == ""
  }

  /** `series` is the Series, still without seasons, built from search record `rec`. */
  predicate SeriesFrom(series: Series, rec: SearchRecord)
    reads series
  {
    && IntOf(rec.year).Some?
    && series.title == rec.title && series.year == IntOf(rec.year).value
    && series.link == SeriesLink + rec.slug
    && series.seasons == Empty()
    && series.hash == "" && series.expiry == 0 && series.frameLink == ""
  }

  /** No Movie and no Series object is listed at two places of `rs`: each item differs from all before it. */
  predicate DistinctItems(rs: seq<MovieOrSeries>)
  {
    rs == [] || (rs[|rs| - 1] !in rs[..|rs| - 1] && DistinctItems(rs[..|rs| - 1]))
  }

  /** Appending an item that is not yet listed keeps the items distinct. */
  lemma DistinctItemsSnoc(rs: seq<MovieOrSeries>, x: MovieOrSeries)
    ensures DistinctItems(rs) && x !in rs ==> DistinctItems(rs + [x])
  {
    assert (rs + [x])[..|rs|] == rs;
  }

  /**
   * Both searches, movies first; an HTTP error on either gives no results.
   * A year that is not a number raises ValueError.
   */
  method Search(query: string, api: SearchApi) returns (r: Result<seq<MovieOrSeries>, PyError>)
    ensures api(MovieSearchLink + query).HttpError? ==> r == Success([])
    ensures api(MovieSearchLink + query).Body? && api(SeriesSearchLink + query).HttpError? ==> r == Success([])
    ensures r.Failure? ==> r.error == ValueError
    ensures api(MovieSearchLink + query).Body? && api(SeriesSearchLink + query).Body? ==>
      var movies := api(MovieSearchLink + query).json;
      var shows := api(SeriesSearchLink + query).json;
      && (r.Success? <==> YearsParse(movies) && YearsParse(shows))
      && (r.Success? ==>
        && |r.value| == |movies| + |shows|
        && (forall i :: 0 <= i < |movies| ==>
              r.value[i].MovieItem? && MovieFrom(r.value[i].movie, movies[i]) && fresh(r.value[i].movie))
        && (forall i :: |movies| <= i < |r.value| ==>
              r.value[i].SeriesItem? && SeriesFrom(r.value[i].series, shows[i - |movies|]) && fresh(r.value[i].series))
        && DistinctItems(r.value))
  {
    var movieReply := api(MovieSearchLink + query);
    if movieReply.HttpError? {
      return Success([]);
    }
    var seriesReply := api(SeriesSearchLink + query);
    if seriesReply.HttpError? {
      return Success([]);
    }
    r := Collect(movieReply.json, seriesReply.json);
  }

  /** The two loops of search, over the decoded movie and show records. */
  method Collect(movies: seq<SearchRecord>, shows: seq<SearchRecord>) returns (r: Result<seq<MovieOrSeries>, PyError>)
    ensures r.Failure? ==> r.error == ValueError
    ensures
      && (r.Success? <==> YearsParse(movies) && YearsParse(shows))
      && (r.Success? ==>
        && |r.value| == |movies| + |shows|
        && (forall i :: 0 <= i < |movies| ==>
              r.value[i].MovieItem? && MovieFrom(r.value[i].movie, movies[i]) && fresh(r.value[i].movie))
        && (forall i :: |movies| <= i < |r.value| ==>
              r.value[i].SeriesItem? && SeriesFrom(r.value[i].series, shows[i - |movies|]) && fresh(r.value[i].series))
        && DistinctItems(r.value))
  {
    var withMovies := AddMovies([], movies);
    if withMovies.Failure? {
      return withMovies;
    }
    var first := withMovies.value;
    r := AddSeries(first, shows);
    if r.Success? {
      assert |first| == |movies|;
      forall i | 0 <= i < |movies|
        ensures r.value[i].MovieItem? && MovieFrom(r.value[i].movie, movies[i]) && fresh(r.value[i].movie)
      {
        // The series loop leaves the movies it does not touch as they were.
        assert r.value[i] == first[i];
      }
    }
  }

  /** `Movie(movie['title'], int(movie['year']), cls.movie_link + movie['slug'])`. */
  method NewMovie(rec: SearchRecord, year: int) returns (movie: Movie)
    requires IntOf(rec.year) == Some(year)
    ensures fresh(movie) && MovieFrom(movie, rec)
  {
    movie := new Movie(rec.title, year, MovieLink + rec.slug);
  }

  /** `Series(series['title'], int(series['year']), cls.series_link + series['slug'], {})`. */
  method NewSeries(rec: SearchRecord, year: int) returns (series: Series)
    requires IntOf(rec.year) == Some(year)
    ensures fresh(series) && SeriesFrom(series, rec)
  {
    series := new Series(rec.title, year, SeriesLink + rec.slug, Empty());
  }

  /** The movie loop of search: one Movie per record, appended to `results`. */
  method AddMovies(results: seq<MovieOrSeries>, movies: seq<SearchRecord>) returns (r: Result<seq<MovieOrSeries>, PyError>)
    ensures r.Success? <==> YearsParse(movies)
    ensures r.Failure? ==> r.error == ValueError
    ensures r.Success? ==> |r.value| == |results| + |movies| && forall k :: 0 <= k < |results| ==> r.value[k] == results[k]
    ensures r.Success? ==> forall k :: |results| <= k < |r.value| ==>
      r.value[k].MovieItem? && MovieFrom(r.value[k].movie, movies[k - |results|]) && fresh(r.value[k].movie)
    ensures r.Success? && DistinctItems(results) ==> DistinctItems(r.value)
  {
    var out := results;
    var i := 0;
    while i < |movies|
      invariant 0 <= i <= |movies| && |out| == |results| + i
      invariant forall k :: 0 <= k < |results| ==> out[k] == results[k]
      invariant forall k :: 0 <= k < i ==> IntOf(movies[k].year).Some?
      invariant forall k :: |results| <= k < |out| ==>
        out[k].MovieItem? && MovieFrom(out[k].movie, movies[k - |results|]) && fresh(out[k].movie)
      invariant DistinctItems(results) ==> DistinctItems(out)
    {
      var year := IntOf(movies[i].year);
      if year.None? {
        return Failure(ValueError);
      }
      var movie := NewMovie(movies[i], year.value);
      if DistinctItems(results) {
        assert DistinctItems(out + [MovieItem(movie)]) by {
          DistinctItemsSnoc(out, MovieItem(movie));
        }
      }
      out := out + [MovieItem(movie)];
      i := i + 1;
    }
    return Success(out);
  }

  /** The series loop of search: one Series per record, appended to `results`. */
  method AddSeries(results: seq<MovieOrSeries>, shows: seq<SearchRecord>) returns (r: Result<seq<MovieOrSeries>, PyError>)
    ensures r.Success? <==> YearsParse(shows)
    ensures r.Failure? ==> r.error == ValueError
    ensures r.Success? ==> |r.value| == |results| + |shows| && forall k :: 0 <= k < |results| ==> r.value[k] == results[k]
    ensures r.Success? ==> forall k :: |results| <= k < |r.value| ==>
      r.value[k].SeriesItem? && SeriesFrom(r.value[k].series, shows[k - |results|]) && fresh(r.value[k].series)
    ensures r.Success? && DistinctItems(results) ==> DistinctItems(r.value)
  {
    var out := results;
    var i := 0;
    while i < |shows|
      invariant 0 <= i <= |shows| && |out| == |results| + i
      invariant forall k :: 0 <= k < |results| ==> out[k] == results[k]
      invariant forall k :: 0 <= k < i ==> IntOf(shows[k].year).Some?
      invariant forall k :: |results| <= k < |out| ==>
        out[k].SeriesItem? && SeriesFrom(out[k].series, shows[k - |results|]) && fresh(out[k].series)
      invariant DistinctItems(results) ==> DistinctItems(out)
    {
      var year := IntOf(shows[i].year);
      if year.None? {
        return Failure(ValueError);
      }
      var series := NewSeries(shows[i], year.value);
      if DistinctItems(results) {
        assert DistinctItems(out + [SeriesItem(series)]) by {
          DistinctItemsSnoc(out, SeriesItem(series));
        }
      }
      out := out + [SeriesItem(series)];
      i := i + 1;
    }
    return Success(out);
  }

  // ---------------------------------------------------------------------------
  // update_info: what the player page yields, and the grouping into seasons
  // ---------------------------------------------------------------------------

  /** One element of the `seasons` list of the player page's data. */
  datatype EpisodeRecord = EpisodeRecord(season: int, episode: int, title: string, idEpisode: int)

  /** The player page's data object. `idMovie` is read for movies only, `seasons` for series only. */
  datatype InfoDict = InfoDict(idMovie: int, hash: string, expires: int, seasons: seq<EpisodeRecord>)

  /** The outcome of loading the content page and then the player page. */
  datatype Scrape =
    | PageError                              // the content page request failed
    | NoScript(href: string)                 // the player page never showed its data script
    | Script(href: string, info: InfoDict)   // the player page's data was read

  /** The records of season `s`, in their order in `records`. */
  function RecordsOf(records: seq<EpisodeRecord>, s: int): (rs: seq<EpisodeRecord>)
    ensures |rs| <= |records|
    ensures forall k :: 0 <= k < |rs| ==> rs[k].season == s
  {
    if records == [] then []
    else
      var last := records[|records| - 1];
      RecordsOf(records[..|records| - 1], s) + (if last.season == s then [last] else [])
  }

  predicate HasSeason(records: seq<EpisodeRecord>, s: int)
  {
    exists i :: 0 <= i < |records| && records[i].season == s
  }

  /** The season numbers in order of first appearance, each once. */
  function SeasonOrder(records: seq<EpisodeRecord>): seq<int>
  {
    if records == [] then []
    else
      var prev := SeasonOrder(records[..|records| - 1]);
      var last := records[|records| - 1];
      if last.season in prev then prev else prev + [last.season]
  }

  /** Each season once; exactly the seasons some record names; a season not listed has no records. */
  lemma {:induction false} SeasonOrderSpec(records: seq<EpisodeRecord>)
    ensures NoDup(SeasonOrder(records))
    ensures forall s :: s in SeasonOrder(records) <==> HasSeason(records, s)
    ensures forall s :: s !in SeasonOrder(records) ==> RecordsOf(records, s) == []
  {
    if records != [] {
      var init := records[..|records| - 1];
      var last := records[|records| - 1];
      SeasonOrderSpec(init);
      assert forall s :: HasSeason(records, s) <==> HasSeason(init, s) || s == last.season by {
        forall s | HasSeason(records, s) && s != last.season
          ensures HasSeason(init, s)
        {
          var i :| 0 <= i < |records| && records[i].season == s;
          assert init[i] == records[i];
        }
        forall s | HasSeason(init, s)
          ensures HasSeason(records, s)
        {
          var i :| 0 <= i < |init| && init[i].season == s;
          assert records[i] == init[i];
        }
        assert records[|records| - 1].season == last.season;
      }
    }
  }

  /** The number of records in the groups of seasons `keys`. */
  function GroupedCount(records: seq<EpisodeRecord>, keys: seq<int>): nat
  {
    if keys == [] then 0
    else GroupedCount(records, keys[..|keys| - 1]) + |RecordsOf(records, keys[|keys| - 1])|
  }

  lemma {:induction false} GroupedCountStep(records: seq<EpisodeRecord>, x: EpisodeRecord, keys: seq<int>)
    requires NoDup(keys)
    ensures GroupedCount(records + [x], keys) == GroupedCount(records, keys) + (if x.season in keys then 1 else 0)
  {
    if keys != [] {
      var init := keys[..|keys| - 1];
      var last := keys[|keys| - 1];
      assert NoDup(init);
      GroupedCountStep(records, x, init);
      assert (records + [x])[..|records + [x]| - 1] == records;
      assert last !in init;
      assert x.season in keys <==> x.season in init || x.season == last;
    }
  }

  /** Every episode record lands in exactly one season group. */
  lemma {:induction false} GroupingCoversRecords(records: seq<EpisodeRecord>)
    ensures GroupedCount(records, SeasonOrder(records)) == |records|
  {
    if records != [] {
      var init := records[..|records| - 1];
      var x := records[|records| - 1];
      assert records == init + [x];
      var prev := SeasonOrder(init);
      GroupingCoversRecords(init);
      SeasonOrderSpec(init);
      GroupedCountStep(init, x, prev);
      if x.season !in prev {
        var keys := prev + [x.season];
        assert keys[..|keys| - 1] == prev;
        assert RecordsOf(init, x.season) == [];
        assert RecordsOf(records, x.season) == [x];
      }
    }
  }

  /** `eps` are the episodes made from `recs`, in the same order. */
  predicate FromRecords(eps: seq<Episode>, recs: seq<EpisodeRecord>)
  {
    && |eps| == |recs|
    && forall k :: 0 <= k < |eps| ==>
      eps[k].number == recs[k].episode && eps[k].title == recs[k].title && eps[k].id == recs[k].idEpisode
  }

  lemma RecordsOfSnoc(records: seq<EpisodeRecord>, rec: EpisodeRecord, s: int)
    ensures RecordsOf(records + [rec], s) == RecordsOf(records, s) + (if rec.season == s then [rec] else [])
  {
    assert (records + [rec])[..|records|] == records;
  }

  lemma SeasonOrderSnoc(records: seq<EpisodeRecord>, rec: EpisodeRecord)
    ensures SeasonOrder(records + [rec]) ==
      if rec.season in SeasonOrder(records) then SeasonOrder(records) else SeasonOrder(records) + [rec.season]
  {
    assert (records + [rec])[..|records|] == records;
  }

  /** The group of season `s` after one more record: the record's episode joins its own season only. */
  lemma GroupEntryStep(d: Seasons, records: seq<EpisodeRecord>, rec: EpisodeRecord, e: Episode, s: int)
    requires d.Valid() && d.keys == SeasonOrder(records)
    requires s in d.entries ==> FromRecords(d.entries[s], RecordsOf(records, s))
    requires e.number == rec.episode && e.title == rec.title && e.id == rec.idEpisode
    requires s in AppendTo(d, rec.season, e).entries
    ensures FromRecords(AppendTo(d, rec.season, e).entries[s], RecordsOf(records + [rec], s))
  {
    var d' := AppendTo(d, rec.season, e);
    RecordsOfSnoc(records, rec, s);
    if s == rec.season {
      var prev := if s in d.entries then d.entries[s] else [];
      if s !in d.entries {
        SeasonOrderSpec(records);
        assert s !in SeasonOrder(records);
        assert RecordsOf(records, s) == [];
      }
      assert FromRecords(prev, RecordsOf(records, s));
      FromRecordsSnoc(prev, RecordsOf(records, s), e, rec);
    } else {
      assert d'.entries[s] == d.entries[s];
    }
  }

  lemma FromRecordsSnoc(eps: seq<Episode>, recs: seq<EpisodeRecord>, e: Episode, rec: EpisodeRecord)
    requires FromRecords(eps, recs)
    requires e.number == rec.episode && e.title == rec.title && e.id == rec.idEpisode
    ensures FromRecords(eps + [e], recs + [rec])
  {
  }

  /**
   * `d` is the grouping of `records`: one key per season in order of first
   * appearance, each holding the episodes of that season's records in order.
   */
  ghost predicate Grouped(d: Seasons, records: seq<EpisodeRecord>)
  {
    && d.Valid()
    && d.keys == SeasonOrder(records)
    && forall s :: s in d.entries ==> FromRecords(d.entries[s], RecordsOf(records, s))
  }

  /** Appending the episode of one more record keeps the map the grouping of the records so far. */
  lemma GroupStep(d: Seasons, records: seq<EpisodeRecord>, rec: EpisodeRecord, e: Episode)
    requires Grouped(d, records)
    requires e.number == rec.episode && e.title == rec.title && e.id == rec.idEpisode
    ensures Grouped(AppendTo(d, rec.season, e), records + [rec])
  {
    SeasonOrderSnoc(records, rec);
    forall s | s in AppendTo(d, rec.season, e).entries
      ensures FromRecords(AppendTo(d, rec.season, e).entries[s], RecordsOf(records + [rec], s))
    {
      GroupEntryStep(d, records, rec, e, s);
    }
  }

  /** `GroupStep` for the record at index `i`. */
  lemma GroupNext(d: Seasons, records: seq<EpisodeRecord>, i: int, e: Episode, where: map<Episode, (int, int)>)
    requires 0 <= i < |records| && Grouped(d, records[..i]) && Located(d, where) && e !in where
    requires e.number == records[i].episode && e.title == records[i].title && e.id == records[i].idEpisode
    ensures Grouped(AppendTo(d, records[i].season, e), records[..i + 1])
    ensures Located(AppendTo(d, records[i].season, e), where[e := (records[i].season, Count(d, records[i].season))])
  {
    assert records[..i + 1] == records[..i] + [records[i]];
    GroupStep(d, records[..i], records[i], e);
    LocatedStep(d, where, records[i].season, e);
  }

  /** How many episodes season `s` of `d` holds. */
  function Count(d: Seasons, s: int): nat
  {
    if s in d.entries then |d.entries[s]| else 0
  }

  /** `where` gives the season and the position at which each episode of `d` is filed. */
  predicate Located(d: Seasons, where: map<Episode, (int, int)>)
  {
    forall s, k :: s in d.entries && 0 <= k < |d.entries[s]| ==>
      d.entries[s][k] in where && where[d.entries[s][k]] == (s, k)
  }

  /** Filing an episode not yet located at the end of its season's list locates it there. */
  lemma LocatedStep(d: Seasons, where: map<Episode, (int, int)>, season: int, e: Episode)
    requires d.Valid() && Located(d, where) && e !in where
    ensures Located(AppendTo(d, season, e), where[e := (season, Count(d, season))])
  {
    var d' := AppendTo(d, season, e);
    var w' := where[e := (season, Count(d, season))];
    forall s, k | s in d'.entries && 0 <= k < |d'.entries[s]| ensures d'.entries[s][k] in w' && w'[d'.entries[s][k]] == (s, k) {
      if s == season && k == Count(d, season) {
        assert d'.entries[s][k] == e;
      } else {
        assert d'.entries[s][k] == d.entries[s][k];
      }
    }
  }

  /** No Episode object is filed at two places of `d`. */
  predicate Distinct(d: Seasons)
  {
    forall s, t, i, j ::
      (s in d.entries && t in d.entries && 0 <= i < |d.entries[s]| && 0 <= j < |d.entries[t]| && (s != t || i != j))
      ==> d.entries[s][i] != d.entries[t][j]
  }

  /** Episodes with one location each are filed once each. */
  lemma LocatedDistinct(d: Seasons, where: map<Episode, (int, int)>)
    requires Located(d, where)
    ensures Distinct(d)
  {
    forall s, t, i, j | s in d.entries && t in d.entries && 0 <= i < |d.entries[s]| && 0 <= j < |d.entries[t]|
      && d.entries[s][i] == d.entries[t][j]
      ensures s == t && i == j
    {
      assert where[d.entries[s][i]] == (s, i) && where[d.entries[t][j]] == (t, j);
    }
  }

  /** The `season_dict` loop of update_info: each record becomes a new Episode of its season. */
  method GroupBySeason(records: seq<EpisodeRecord>) returns (seasons: Seasons)
    ensures Grouped(seasons, records) && Distinct(seasons)
    ensures forall s, k :: s in seasons.entries && 0 <= k < |seasons.entries[s]| ==>
      fresh(seasons.entries[s][k]) && seasons.entries[s][k].m3u8 == "" && seasons.entries[s][k].subtitle == ""
  {
    seasons := Empty();
    ghost var where: map<Episode, (int, int)> := map[];
    for i := 0 to |records|
      invariant Grouped(seasons, records[..i]) && Located(seasons, where)
      invariant forall e :: e in where ==> fresh(e) && e.m3u8 == "" && e.subtitle == ""
    {
      var rec := records[i];
      var episode := new Episode(rec.episode, rec.title, rec.idEpisode);
      GroupNext(seasons, records, i, episode, where);
      where := where[episode := (rec.season, Count(seasons, rec.season))];
      seasons := AppendTo(seasons, rec.season, episode);
    }
    assert records[..|records|] == records;
    LocatedDistinct(seasons, where);
  }

  /** update_info for a movie: the frame link, then id, hash and expiry from the player data. */
  method UpdateMovieInfo(movie: Movie, scrape: Scrape) returns (ok: bool)
    modifies movie
    ensures ok <==> scrape.Script?
    ensures scrape.PageError? ==> unchanged(movie)
    ensures !scrape.PageError? ==> movie.frameLink == Strip(scrape.href)
    ensures scrape.NoScript? ==>
      movie.id == old(movie.id) && movie.hash == old(movie.hash) && movie.expiry == old(movie.expiry)
    ensures scrape.Script? ==>
      movie.id == scrape.info.idMovie && movie.hash == Strip(scrape.info.hash) && movie.expiry == scrape.info.expires
    ensures movie.title == old(movie.title) && movie.m3u8 == old(movie.m3u8) && movie.subtitle == old(movie.subtitle)
  {
    if scrape.PageError? {
      return false;
    }
    movie.frameLink := Strip(scrape.href);
    if scrape.NoScript? {
      return false;
    }
    movie.id := scrape.info.idMovie;
    movie.hash := Strip(scrape.info.hash);
    movie.expiry := scrape.info.expires;
    return true;
  }

  /** update_info for a series: the frame link, hash and expiry, and the episodes grouped by season. */
  method UpdateSeriesInfo(series: Series, scrape: Scrape) returns (ok: bool)
    modifies series
    ensures ok <==> scrape.Script?
    ensures scrape.PageError? ==> unchanged(series)
    ensures !scrape.PageError? ==> series.frameLink == Strip(scrape.href)
    ensures scrape.NoScript? ==>
      series.hash == old(series.hash) && series.expiry == old(series.expiry) && series.seasons == old(series.seasons)
    ensures scrape.Script? ==>
      && series.hash == Strip(scrape.info.hash) && series.expiry == scrape.info.expires
      && Grouped(series.seasons, scrape.info.seasons) && Distinct(series.seasons)
      && (forall s, k :: s in series.seasons.entries && 0 <= k < |series.seasons.entries[s]| ==>
            var e := series.seasons.entries[s][k]; fresh(e) && e.m3u8 == "" && e.subtitle == "")
    ensures series.title == old(series.title)
  {
    if scrape.PageError? {
      return false;
    }
    series.frameLink := Strip(scrape.href);
    if scrape.NoScript? {
      return false;
    }
    series.hash := Strip(scrape.info.hash);
    series.expiry := scrape.info.expires;
    var seasons := GroupBySeason(scrape.info.seasons);
    series.seasons := seasons;
    return true;
  }

  // ---------------------------------------------------------------------------
  // set_m3u8_n_subtitle: the access request and its answer
  // ---------------------------------------------------------------------------

  datatype Subtitle = Subtitle(language: string, file: string)

  /** One member of the `streams` object: a quality label such as "720p" and its playlist URL. */
  datatype Stream = Stream(key: string, url: string)

  /** The access answer; `streams` lists the object's members in document order. */
  datatype Resources = Resources(success: bool, message: string, subtitles: seq<Subtitle>, streams: seq<Stream>)

  type AccessApi = string -> Reply<Resources>

  /** The stream and subtitle links of a movie or an episode. */
  datatype Links = Links(m3u8: string, subtitle: string)

  /** None, `(False, message)`, or an exception that escapes set_m3u8_n_subtitle. */
  datatype SetOutcome = Done | Failed(message: string) | Raised(error: PyError)

  const MovieAccessQuery := "api/v1/security/movie-access?id_movie="
  const EpisodeAccessQuery := "api/v1/security/episode-access?id_episode="

  /** The path and query of a movie's access request (the leading `/` kept apart). */
  function MovieAccessPath(id: int, hash: string, expiry: int): string
  {
    "/" + (MovieAccessQuery + Decimal(id) + "&hash=" + hash + "&expires=" + Decimal(expiry))
  }

  /** The path and query of an episode's access request (the leading `/` kept apart). */
  function EpisodeAccessPath(id: int, hash: string, expiry: int): string
  {
    "/" + (EpisodeAccessQuery + Decimal(id) + "&hash=" + hash + "&expires=" + Decimal(expiry))
  }

  function MovieAccessUrl(domain: string, id: int, hash: string, expiry: int): string
  {
    "https://" + domain + MovieAccessPath(id, hash, expiry)
  }

  function EpisodeAccessUrl(domain: string, id: int, hash: string, expiry: int): string
  {
    "https://" + domain + EpisodeAccessPath(id, hash, expiry)
  }

  lemma AccessPathsStartWithSlash(id: int, hash: string, expiry: int)
    ensures MovieAccessPath(id, hash, expiry)[0] == '/'
    ensures EpisodeAccessPath(id, hash, expiry)[0] == '/'
  {
  }

  /** The access requests go to the host of the frame link. */
  lemma AccessUrlHost(frameLink: string, id: int, hash: string, expiry: int)
    ensures Netloc(MovieAccessUrl(Netloc(frameLink), id, hash, expiry)) == Netloc(frameLink)
    ensures Netloc(EpisodeAccessUrl(Netloc(frameLink), id, hash, expiry)) == Netloc(frameLink)
  {
    var host := Netloc(frameLink);
    AccessPathsStartWithSlash(id, hash, expiry);
    NetlocOfHttps(host, MovieAccessPath(id, hash, expiry));
    NetlocOfHttps(host, EpisodeAccessPath(id, hash, expiry));
  }

  predicate IsEnglish(sub: Subtitle)
  {
    Lower(sub.language) == "english"
  }

  predicate NoEnglishBefore(subs: seq<Subtitle>, n: nat)
    requires n <= |subs|
  {
    forall j :: 0 <= j < n ==> !IsEnglish(subs[j])
  }

  /** The subtitle link after the subtitle loop, which starts at index `from`. */
  function SubtitleChoice(domain: string, subs: seq<Subtitle>, from: nat, current: string): (r: string)
    requires from <= |subs| && NoEnglishBefore(subs, from)
    ensures forall i :: from <= i < |subs| && IsEnglish(subs[i]) && NoEnglishBefore(subs, i) ==>
      r == "https://" + domain + subs[i].file
    ensures NoEnglishBefore(subs, |subs|) ==> r == current
    ensures r == current || exists i :: from <= i < |subs| && r == "https://" + domain + subs[i].file
    decreases |subs| - from
  {
    if from == |subs| then current
    else if IsEnglish(subs[from]) then "https://" + domain + subs[from].file
    else SubtitleChoice(domain, subs, from + 1, current)
  }

  /** The subtitle loop: the first English subtitle, on the player's host; else `current`. */
  method SelectSubtitle(domain: string, subs: seq<Subtitle>, current: string) returns (subtitle: string)
    ensures subtitle == SubtitleChoice(domain, subs, 0, current)
  {
    subtitle := current;
    var i := 0;
    while i < |subs|
      invariant 0 <= i <= |subs| && NoEnglishBefore(subs, i)
      invariant SubtitleChoice(domain, subs, i, current) == SubtitleChoice(domain, subs, 0, current)
      invariant subtitle == current
    {
      if Lower(subs[i].language) == "english" {
        subtitle := "https://" + domain + subs[i].file;
        break;
      }
      i := i + 1;
    }
  }

  /** `int(key.replace('p', '').strip())`, or None where that raises ValueError. */
  function StreamQuality(key: string): Option<int>
  {
    IntOf(Strip(RemoveChars(key, {'p'})))
  }

  /** The site's labels, such as "1080p", name the quality they spell. */
  lemma StreamLabelQuality(q: nat)
    ensures StreamQuality(Decimal(q) + "p") == Some(q)
  {
    var ds := Decimal(q);
    assert AllDigits(ds);
    RemoveCharsAppend(ds, "p", {'p'});
    RemoveCharsClean(ds, {'p'});
    assert RemoveChars("p", {'p'}) == [] by {
      assert "p"[..0] == [] && "p"[0] == 'p';
    }
    assert RemoveChars(ds + "p", {'p'}) == ds;
    assert IsDigit(ds[0]) && IsDigit(ds[|ds| - 1]);
    StripUnblank(ds);
    IntOfDecimal(q);
  }

  /** The label of `s` is the number `q`. */
  predicate Names(s: Stream, q: int)
  {
    StreamQuality(s.key) == Some(q)
  }

  /** The labels before index `n` are all numbers other than `q`. */
  predicate OthersBefore(streams: seq<Stream>, n: nat, q: int)
    requires n <= |streams|
  {
    forall j :: 0 <= j < n ==> StreamQuality(streams[j].key).Some? && StreamQuality(streams[j].key).value != q
  }

  /** Where the stream loop stops: a match, a label `int()` rejects, or the end. */
  datatype Scan = Hit(index: nat) | BadKey(index: nat) | NoHit

  function ScanStreams(streams: seq<Stream>, q: int, from: nat): (r: Scan)
    requires from <= |streams| && OthersBefore(streams, from, q)
    ensures r.Hit? ==> from <= r.index < |streams| && Names(streams[r.index], q) && OthersBefore(streams, r.index, q)
    ensures r.BadKey? ==>
      from <= r.index < |streams| && StreamQuality(streams[r.index].key).None? && OthersBefore(streams, r.index, q)
    ensures r.NoHit? ==> OthersBefore(streams, |streams|, q)
    decreases |streams| - from
  {
    if from == |streams| then NoHit
    else
      match StreamQuality(streams[from].key)
      case None => BadKey(from)
      case Some(v) => if v == q then Hit(from) else ScanStreams(streams, q, from + 1)
  }

  /**
   * The playlist link after the stream loop and the fallback to the first
   * stream when the link is still empty; `current` is the link before.
   */
  function StreamChoice(streams: seq<Stream>, q: int, current: string): (r: Result<string, PyError>)
    ensures r == Failure(ValueError) <==>
      exists i :: 0 <= i < |streams| && StreamQuality(streams[i].key).None? && OthersBefore(streams, i, q)
    ensures forall i :: 0 <= i < |streams| && Names(streams[i], q) && OthersBefore(streams, i, q) ==>
      r == Success(if streams[i].url != "" then streams[i].url else streams[0].url)
    ensures OthersBefore(streams, |streams|, q) ==>
      r == if current != "" then Success(current)
           else if streams == [] then Failure(IndexError)
           else Success(streams[0].url)
  {
    match ScanStreams(streams, q, 0)
    case BadKey(_) => Failure(ValueError)
    case Hit(i) => Success(if streams[i].url != "" then streams[i].url else streams[0].url)
    case NoHit =>
      if current != "" then Success(current)
      else if streams == [] then Failure(IndexError)
      else Success(streams[0].url)
  }

  /** The stream loop with its `break`, then the fallback to the first stream. */
  method SelectStream(streams: seq<Stream>, q: int, current: string) returns (r: Result<string, PyError>)
    ensures r == StreamChoice(streams, q, current)
  {
    var m3u8 := current;
    var i := 0;
    while i < |streams|
      invariant 0 <= i <= |streams| && OthersBefore(streams, i, q)
      invariant ScanStreams(streams, q, i) == ScanStreams(streams, q, 0)
      invariant m3u8 == current
    {
      var quality := IntOf(Strip(RemoveChars(streams[i].key, {'p'})));
      if quality.None? {
        return Failure(ValueError);
      }
      if quality.value == q {
        m3u8 := streams[i].url;
        break;
      }
      i := i + 1;
    }
    if m3u8 == "" {
      if |streams| == 0 {
        return Failure(IndexError);
      }
      m3u8 := streams[0].url;
    }
    return Success(m3u8);
  }

  /** The effect of one access answer on the links it fills in. */
  function AccessStep(reply: Reply<Resources>, domain: string, q: int, before: Links): (r: (SetOutcome, Links))
    ensures reply.HttpError? ==> r == (Failed("HTTP Error"), before)
    ensures reply.Body? && !reply.json.success ==> r == (Failed(reply.json.message), before)
    ensures r.0.Raised? ==> r.1.m3u8 == before.m3u8
    ensures r.0.Done? ==> reply.Body? && reply.json.success
    ensures r.0.Done? ==>
      || (before.m3u8 != "" && r.1.m3u8 == before.m3u8)
      || exists i :: 0 <= i < |reply.json.streams| && r.1.m3u8 == reply.json.streams[i].url
    ensures r.1.subtitle == before.subtitle || exists i :: 0 <= i < |reply.json.subtitles| && r.1.subtitle == "https://" + domain + reply.json.subtitles[i].file
  {
    match reply
    case HttpError => (Failed("HTTP Error"), before)
    case Body(res) =>
      if !res.success then (Failed(res.message), before)
      else
        var subtitle := SubtitleChoice(domain, res.subtitles, 0, before.subtitle);
        match StreamChoice(res.streams, q, before.m3u8)
        case Failure(e) => (Raised(e), Links(before.m3u8, subtitle))
        case Success(url) => (Done, Links(url, subtitle))
  }

  /** One access answer handled as the loops of set_m3u8_n_subtitle do. */
  method HandleAccess(reply: Reply<Resources>, domain: string, q: int, before: Links)
    returns (outcome: SetOutcome, after: Links)
    ensures (outcome, after) == AccessStep(reply, domain, q, before)
  {
    if reply.HttpError? {
      return Failed("HTTP Error"), before;
    }
    var res := reply.json;
    if !res.success {
      return Failed(res.message), before;
    }
    var subtitle := SelectSubtitle(domain, res.subtitles, before.subtitle);
    var stream := SelectStream(res.streams, q, before.m3u8);
    if stream.Failure? {
      return Raised(stream.error), Links(before.m3u8, subtitle);
    }
    return Done, Links(stream.value, subtitle);
  }

  /** set_m3u8_n_subtitle for a movie: one access request, then its links. */
  method SetMovieM3u8NSubtitle(movie: Movie, quality: int, api: AccessApi) returns (outcome: SetOutcome)
    modifies movie
    ensures
      var domain := Netloc(old(movie.frameLink));
      var url := MovieAccessUrl(domain, old(movie.id), old(movie.hash), old(movie.expiry));
      (outcome, Links(movie.m3u8, movie.subtitle))
        == AccessStep(api(url), domain, quality, Links(old(movie.m3u8), old(movie.subtitle)))
    ensures movie.title == old(movie.title) && movie.id == old(movie.id) && movie.hash == old(movie.hash)
    ensures movie.expiry == old(movie.expiry) && movie.frameLink == old(movie.frameLink)
  {
    var domain := Netloc(movie.frameLink);
    var url := MovieAccessUrl(domain, movie.id, movie.hash, movie.expiry);
    var after;
    outcome, after := HandleAccess(api(url), domain, quality, Links(movie.m3u8, movie.subtitle));
    movie.subtitle := after.subtitle;
    movie.m3u8 := after.m3u8;
  }

  // ---------------------------------------------------------------------------
  // set_m3u8_n_subtitle for a series: every episode, stopping at the first failure
  // ---------------------------------------------------------------------------

  /** What every episode request shares. */
  datatype Access = Access(domain: string, hash: string, expiry: int, quality: int, api: AccessApi)

  /** One episode's request: what its answer does, starting from the links `before` it holds. */
  function EpisodeStep(ctx: Access, id: int, before: Links): (SetOutcome, Links)
  {
    AccessStep(ctx.api(EpisodeAccessUrl(ctx.domain, id, ctx.hash, ctx.expiry)), ctx.domain, ctx.quality, before)
  }

  /** A request step, from an episode id and its links to the outcome and its new links. */
  type StepFn = (int, Links) -> (SetOutcome, Links)

  /** The request step of every episode of a series. */
  function EpisodeSteps(ctx: Access): StepFn
  {
    (id, l) => EpisodeStep(ctx, id, l)
  }

  /**
   * `step` is the request step of `ctx`. The run lemmas are stated for any
   * step; the loops take the step as a ghost parameter and use this fact
   * only where an episode's request is made.
   */
  ghost predicate StepOf(step: StepFn, ctx: Access)
  {
    forall id, l {:trigger EpisodeStep(ctx, id, l)} :: step(id, l) == EpisodeStep(ctx, id, l)
  }

  /**
   * Episodes handled in order, `steps[k]` being what episode `k`'s own answer
   * does: the outcome and every episode's links afterwards. The loop stops at
   * the first step that is not a success.
   */
  function RunSteps(steps: seq<(SetOutcome, Links)>, before: seq<Links>): (r: (SetOutcome, seq<Links>))
    requires |steps| == |before|
    ensures |r.1| == |before|
  {
    if steps == [] then (Done, [])
    else if steps[0].0.Done? then
      var rest := RunSteps(steps[1..], before[1..]);
      (rest.0, [steps[0].1] + rest.1)
    else (steps[0].0, [steps[0].1] + before[1..])
  }

  /** Step `f` is the first that fails, and `r` is what that leaves. */
  predicate FailsFirstAt(steps: seq<(SetOutcome, Links)>, before: seq<Links>, f: int, r: (SetOutcome, seq<Links>))
    requires |steps| == |before| == |r.1|
  {
    && 0 <= f < |steps|
    && r.0 == steps[f].0 && !r.0.Done?
    && (forall k :: 0 <= k < f ==> steps[k].0.Done? && r.1[k] == steps[k].1)
    && r.1[f] == steps[f].1
    && (forall k :: f < k < |steps| ==> r.1[k] == before[k])
  }

  /**
   * The series loop stops at the first episode whose request does not
   * succeed: the episodes before it have their links, it has what its own
   * answer gave, and the episodes after it are untouched. With no failure,
   * every episode has its links and the outcome is None.
   */
  lemma {:induction false} RunStepsStopsAtFirstFailure(steps: seq<(SetOutcome, Links)>, before: seq<Links>)
    requires |steps| == |before|
    ensures var r := RunSteps(steps, before);
      && (r.0.Done? <==> forall k :: 0 <= k < |steps| ==> steps[k].0.Done?)
      && (r.0.Done? ==> forall k :: 0 <= k < |steps| ==> r.1[k] == steps[k].1)
      && (!r.0.Done? ==> exists f :: FailsFirstAt(steps, before, f, r))
  {
    if steps != [] {
      var r := RunSteps(steps, before);
      if steps[0].0.Done? {
        var rest := RunSteps(steps[1..], before[1..]);
        RunStepsStopsAtFirstFailure(steps[1..], before[1..]);
        assert r.0 == rest.0 && r.1 == [steps[0].1] + rest.1;
        assert forall k :: 1 <= k < |steps| ==> r.1[k] == rest.1[k - 1];
        assert forall k :: 1 <= k < |steps| ==> steps[1..][k - 1] == steps[k] && before[1..][k - 1] == before[k];
        if !r.0.Done? {
          var f :| FailsFirstAt(steps[1..], before[1..], f, rest);
          assert !steps[f + 1].0.Done?;
          assert FailsFirstAt(steps, before, f + 1, r);
        }
      } else {
        assert r.0 == steps[0].0 && r.1 == [steps[0].1] + before[1..];
        assert forall k :: 1 <= k < |steps| ==> r.1[k] == before[k];
        assert FailsFirstAt(steps, before, 0, r);
      }
    }
  }

  /** What each episode's own access answer does to it. */
  function Steps(step: StepFn, ids: seq<int>, before: seq<Links>): (steps: seq<(SetOutcome, Links)>)
    requires |ids| == |before|
    ensures |steps| == |ids|
  {
    seq(|ids|, k requires 0 <= k < |ids| => step(ids[k], before[k]))
  }

  function Ids(eps: seq<Episode>): (ids: seq<int>)
    ensures |ids| == |eps| && forall k :: 0 <= k < |eps| ==> ids[k] == eps[k].id
  {
    seq(|eps|, k requires 0 <= k < |eps| => eps[k].id)
  }

  /** The links that `st` gives the episodes of `eps`, position by position. */
  function LinksIn(eps: seq<Episode>, st: map<Episode, Links>): (links: seq<Links>)
    requires forall e :: e in eps ==> e in st
    ensures |links| == |eps| && forall k :: 0 <= k < |eps| ==> links[k] == st[eps[k]]
  {
    seq(|eps|, k requires 0 <= k < |eps| => st[eps[k]])
  }

  /** The links every episode of `eps` holds now. */
  function LinksMap(eps: seq<Episode>): (m: map<Episode, Links>)
    reads eps
    ensures m.Keys == set e | e in eps
  {
    map e | e in eps :: Links(e.m3u8, e.subtitle)
  }

  /**
   * The episode loop of set_m3u8_n_subtitle over `eps`, on the links `st`
   * the episode objects hold. Each request starts from the links its episode
   * holds at that moment, so an episode listed twice is asked for twice, the
   * second time starting from what the first wrote. The loop stops at the
   * first step that is not a success, keeping what that step wrote.
   */
  function Run(step: StepFn, eps: seq<Episode>, st: map<Episode, Links>): (r: (SetOutcome, map<Episode, Links>))
    requires forall e :: e in eps ==> e in st
    ensures r.1.Keys == st.Keys
    decreases |eps|
  {
    if eps == [] then (Done, st)
    else
      var now := step(eps[0].id, st[eps[0]]);
      var st' := st[eps[0] := now.1];
      if now.0.Done? then Run(step, eps[1..], st') else (now.0, st')
  }

  /** An episode the loop never reaches keeps its links. */
  lemma {:induction false} RunFrame(step: StepFn, eps: seq<Episode>, st: map<Episode, Links>, e: Episode)
    requires forall x :: x in eps ==> x in st
    requires e in st && e !in eps
    ensures Run(step, eps, st).1[e] == st[e]
    decreases |eps|
  {
    if eps != [] {
      var now := step(eps[0].id, st[eps[0]]);
      if now.0.Done? {
        RunFrame(step, eps[1..], st[eps[0] := now.1], e);
      }
    }
  }

  /** The loop over `a + b` is the loop over `a`, then, if that succeeded, the loop over `b`. */
  lemma {:induction false} RunAppend(step: StepFn, a: seq<Episode>, b: seq<Episode>, st: map<Episode, Links>)
    requires forall e :: e in a + b ==> e in st
    ensures var ra := Run(step, a, st);
      Run(step, a + b, st) == if ra.0.Done? then Run(step, b, ra.1) else ra
    decreases |a|
  {
    if a == [] {
      assert a + b == b;
    } else {
      assert (a + b)[0] == a[0] && (a + b)[1..] == a[1..] + b;
      var now := step(a[0].id, st[a[0]]);
      if now.0.Done? {
        RunAppend(step, a[1..], b, st[a[0] := now.1]);
      }
    }
  }

  /**
   * With every episode listed once, the loop is `RunSteps` over each
   * episode's own answer to its original links: its outcome, and each
   * episode's final links.
   */
  lemma {:induction false} RunOfDistinct(step: StepFn, eps: seq<Episode>, st: map<Episode, Links>)
    requires NoDup(eps) && forall e :: e in eps ==> e in st
    ensures var before := LinksIn(eps, st);
      var r := Run(step, eps, st);
      var rs := RunSteps(Steps(step, Ids(eps), before), before);
      r.0 == rs.0 && forall k :: 0 <= k < |eps| ==> r.1[eps[k]] == rs.1[k]
    decreases |eps|, 1
  {
    if eps != [] {
      var now := step(eps[0].id, st[eps[0]]);
      if now.0.Done? {
        RunOfDistinctDone(step, eps, st);
      } else {
        assert Steps(step, Ids(eps), LinksIn(eps, st))[0] == now;
        StopAgree(eps, st, now.1);
      }
    }
  }

  /** The inductive case of RunOfDistinct: the first episode succeeds and the run goes on with the rest. */
  lemma {:induction false} RunOfDistinctDone(step: StepFn, eps: seq<Episode>, st: map<Episode, Links>)
    requires eps != [] && NoDup(eps) && forall e :: e in eps ==> e in st
    requires step(eps[0].id, st[eps[0]]).0.Done?
    ensures var before := LinksIn(eps, st);
      var r := Run(step, eps, st);
      var rs := RunSteps(Steps(step, Ids(eps), before), before);
      r.0 == rs.0 && forall k :: 0 <= k < |eps| ==> r.1[eps[k]] == rs.1[k]
    decreases |eps|, 0
  {
    var e := eps[0];
    var tail := eps[1..];
    var before := LinksIn(eps, st);
    var steps := Steps(step, Ids(eps), before);
    var now := step(e.id, st[e]);
    var st' := st[e := now.1];
    assert steps[0] == now;
    DistinctTail(eps);
    RunOfDistinct(step, tail, st');
    StepsTail(step, eps, st, st');
    RunFrame(step, tail, st', e);
    var r' := Run(step, tail, st');
    var rs' := RunSteps(steps[1..], before[1..]);
    assert Run(step, eps, st) == r';
    assert RunSteps(steps, before) == (rs'.0, [now.1] + rs'.1);
    ConsAgree(eps, r'.1, now.1, rs'.1);
  }

  /** Writing `l` for the head of a list without repeats leaves every other element's value. */
  lemma StopAgree(eps: seq<Episode>, st: map<Episode, Links>, l: Links)
    requires eps != [] && NoDup(eps) && forall e :: e in eps ==> e in st
    ensures forall k :: 0 <= k < |eps| ==> st[eps[0] := l][eps[k]] == ([l] + LinksIn(eps, st)[1..])[k]
  {
    forall k | 0 <= k < |eps| ensures st[eps[0] := l][eps[k]] == ([l] + LinksIn(eps, st)[1..])[k] {
      if k > 0 {
        assert eps[k] != eps[0];
      }
    }
  }

  /** The tail of a list without repeats has none, and does not hold the head. */
  lemma DistinctTail<T>(s: seq<T>)
    requires s != [] && NoDup(s)
    ensures NoDup(s[1..]) && s[0] !in s[1..]
  {
    var tail := s[1..];
    forall i, j | 0 <= i < j < |tail| ensures tail[i] != tail[j] {
      assert tail[i] == s[i + 1] && tail[j] == s[j + 1];
    }
  }

  /** Writing the head's links leaves the tail's links, and so the tail's steps, as they were. */
  lemma StepsTail(step: StepFn, eps: seq<Episode>, st: map<Episode, Links>, st': map<Episode, Links>)
    requires eps != [] && eps[0] !in eps[1..] && forall e :: e in eps ==> e in st
    requires st'.Keys == st.Keys && forall e :: e in st && e != eps[0] ==> st'[e] == st[e]
    ensures LinksIn(eps[1..], st') == LinksIn(eps, st)[1..]
    ensures Steps(step, Ids(eps[1..]), LinksIn(eps[1..], st')) == Steps(step, Ids(eps), LinksIn(eps, st))[1..]
  {
    assert LinksIn(eps[1..], st') == LinksIn(eps, st)[1..];
    assert Ids(eps[1..]) == Ids(eps)[1..];
  }

  /** Pointwise agreement extends from a tail to the whole list when the head agrees too. */
  lemma ConsAgree(eps: seq<Episode>, m: map<Episode, Links>, l: Links, ls: seq<Links>)
    requires eps != [] && |ls| == |eps| - 1 && eps[0] in m && m[eps[0]] == l
    requires forall k :: 0 <= k < |eps[1..]| ==> eps[1..][k] in m && m[eps[1..][k]] == ls[k]
    ensures forall k :: 0 <= k < |eps| ==> eps[k] in m && m[eps[k]] == ([l] + ls)[k]
  {
    forall k | 0 <= k < |eps| ensures eps[k] in m && m[eps[k]] == ([l] + ls)[k] {
      if k > 0 {
        assert eps[k] == eps[1..][k - 1];
      }
    }
  }

  /**
   * An episode listed twice in a row is asked for twice: the second request
   * starts from the links the first one wrote, and the second answer's links
   * are what the episode keeps.
   */
  lemma RunRevisit(step: StepFn, b: Episode, st: map<Episode, Links>)
    requires b in st
    ensures var first := step(b.id, st[b]);
      var second := step(b.id, first.1);
      Run(step, [b, b], st) == if first.0.Done? then (second.0, st[b := second.1]) else (first.0, st[b := first.1])
  {
    var first := step(b.id, st[b]);
    assert [b, b] == [b] + [b];
    RunAppend(step, [b], [b], st);
    RunSingle(step, b, st);
    RunSingle(step, b, st[b := first.1]);
    assert st[b := first.1][b] == first.1;
    var second := step(b.id, first.1);
    assert st[b := first.1][b := second.1] == st[b := second.1];
  }

  /** A one-episode run is that episode's step. */
  lemma RunSingle(step: StepFn, b: Episode, st: map<Episode, Links>)
    requires b in st
    ensures var now := step(b.id, st[b]);
      Run(step, [b], st) == (now.0, st[b := now.1])
  {
    assert [b][0] == b && [b][1..] == [];
  }

  /** The body of the episode loop: one episode's access request, starting from the links it holds now. */
  method UpdateEpisode(episode: Episode, ctx: Access) returns (outcome: SetOutcome)
    modifies episode
    ensures (outcome, Links(episode.m3u8, episode.subtitle))
      == EpisodeStep(ctx, episode.id, old(Links(episode.m3u8, episode.subtitle)))
  {
    var url := EpisodeAccessUrl(ctx.domain, episode.id, ctx.hash, ctx.expiry);
    var links;
    outcome, links := HandleAccess(ctx.api(url), ctx.domain, ctx.quality, Links(episode.m3u8, episode.subtitle));
    episode.subtitle := links.subtitle;
    episode.m3u8 := links.m3u8;
  }

  /** The loop's state after episode `e` of `all` got the links `l` and nothing else changed. */
  lemma LinksMapAfter(all: seq<Episode>, before: map<Episode, Links>, now: map<Episode, Links>, e: Episode, l: Links)
    requires e in before && before.Keys == now.Keys
    requires now[e] == l && forall x :: x in now && x != e ==> now[x] == before[x]
    ensures now == before[e := l]
  {
  }

  /** The episodes of one season, each one of `all`, handled in order until one fails. */
  method UpdateSeason(season: seq<Episode>, ctx: Access, ghost step: StepFn, ghost all: seq<Episode>)
    returns (outcome: SetOutcome)
    requires StepOf(step, ctx) && forall e :: e in season ==> e in all
    modifies all
    ensures (outcome, LinksMap(all)) == Run(step, season, old(LinksMap(all)))
  {
    ghost var goal := Run(step, season, LinksMap(all));
    var j := 0;
    while j < |season|
      invariant 0 <= j <= |season|
      invariant Run(step, season[j..], LinksMap(all)) == goal
    {
      var episode := season[j];
      assert episode in season;
      ghost var m := LinksMap(all);
      assert season[j..][0] == episode && season[j..][1..] == season[j + 1..];
      outcome := UpdateEpisode(episode, ctx);
      LinksMapAfter(all, m, LinksMap(all), episode, Links(episode.m3u8, episode.subtitle));
      if !outcome.Done? {
        return;
      }
      j := j + 1;
    }
    outcome := Done;
  }



  /** Running one season, then the episodes after it, is running everything from the season on. */
  lemma SeasonThenRest(step: StepFn, eps: seq<Episode>, p: nat, season: seq<Episode>, m: map<Episode, Links>,
                       outcome: SetOutcome, m': map<Episode, Links>, goal: (SetOutcome, map<Episode, Links>))
    requires p + |season| <= |eps| && eps[p..] == season + eps[p + |season|..]
    requires forall e :: e in eps ==> e in m
    requires forall e :: e in season ==> e in m
    requires (outcome, m') == Run(step, season, m) && Run(step, eps[p..], m) == goal
    ensures outcome.Done? ==> Run(step, eps[p + |season|..], m') == goal
    ensures !outcome.Done? ==> (outcome, m') == goal
  {
    var rest := eps[p + |season|..];
    forall e | e in season + rest ensures e in m {
      assert e in eps[p..];
    }
    RunAppend(step, season, rest, m);
  }


  /** Running season `i` from `p` on, and then the seasons after it, is running everything from `p` on. */
  lemma SeasonStep(step: StepFn, keys: seq<int>, entries: map<int, seq<Episode>>, eps: seq<Episode>, i: nat, p: nat,
                   m: map<Episode, Links>, outcome: SetOutcome, m': map<Episode, Links>,
                   goal: (SetOutcome, map<Episode, Links>))
    requires KeysPresent(keys, entries) && i < |keys| && p <= |eps| && eps[p..] == Flatten(keys[i..], entries)
    requires (forall e :: e in eps ==> e in m) && (forall e :: e in entries[keys[i]] ==> e in m)
    requires (outcome, m') == Run(step, entries[keys[i]], m) && Run(step, eps[p..], m) == goal
    ensures p + |entries[keys[i]]| <= |eps| && eps[p + |entries[keys[i]]|..] == Flatten(keys[i + 1..], entries)
    ensures outcome.Done? ==> Run(step, eps[p + |entries[keys[i]]|..], m') == goal
    ensures !outcome.Done? ==> (outcome, m') == goal
  {
    var season := entries[keys[i]];
    NextSeason(keys, entries, eps, i, p);
    SeasonThenRest(step, eps, p, season, m, outcome, m', goal);
  }

  /** Each episode of season `i` is one of `eps`. */
  lemma SeasonWithin(keys: seq<int>, entries: map<int, seq<Episode>>, eps: seq<Episode>, i: nat, p: nat)
    requires KeysPresent(keys, entries) && i < |keys| && p <= |eps| && eps[p..] == Flatten(keys[i..], entries)
    ensures forall e :: e in entries[keys[i]] ==> e in eps
  {
    NextSeason(keys, entries, eps, i, p);
  }

  /** Season `i` comes first in what is left of `eps` from `p` on, and each of its episodes is one of `eps`. */
  lemma NextSeason(keys: seq<int>, entries: map<int, seq<Episode>>, eps: seq<Episode>, i: nat, p: nat)
    requires KeysPresent(keys, entries) && i < |keys| && p <= |eps| && eps[p..] == Flatten(keys[i..], entries)
    ensures var season := entries[keys[i]];
      && p + |season| <= |eps| && eps[p..] == season + eps[p + |season|..]
      && eps[p + |season|..] == Flatten(keys[i + 1..], entries)
      && (forall e :: e in season ==> e in eps)
  {
    var season := entries[keys[i]];
    assert keys[i..][0] == keys[i] && keys[i..][1..] == keys[i + 1..];
    assert eps[p..] == season + Flatten(keys[i + 1..], entries);
    assert eps[p + |season|..] == eps[p..][|season|..];
    forall e | e in season ensures e in eps {
      var k :| 0 <= k < |season| && season[k] == e;
      assert eps[p + k] == eps[p..][k];
    }
  }

  /**
   * One turn of the season loop: season `i`, whose episodes start at `p` in
   * `eps`, on the way to the outcome and links `goal` of the whole run.
   */
  method UpdateNextSeason(keys: seq<int>, entries: map<int, seq<Episode>>, ctx: Access, ghost step: StepFn,
                          ghost eps: seq<Episode>, i: nat, ghost p: nat, ghost goal: (SetOutcome, map<Episode, Links>))
    returns (outcome: SetOutcome, ghost p': nat)
    requires StepOf(step, ctx)
    requires KeysPresent(keys, entries) && i < |keys| && p <= |eps| && eps[p..] == Flatten(keys[i..], entries)
    requires Run(step, eps[p..], LinksMap(eps)) == goal
    modifies eps
    ensures p' <= |eps| && eps[p'..] == Flatten(keys[i + 1..], entries)
    ensures outcome.Done? ==> Run(step, eps[p'..], LinksMap(eps)) == goal
    ensures !outcome.Done? ==> (outcome, LinksMap(eps)) == goal
  {
    var season := entries[keys[i]];
    SeasonWithin(keys, entries, eps, i, p);
    outcome := UpdateSeason(season, ctx, step, eps);
    SeasonStep(step, keys, entries, eps, i, p, old(LinksMap(eps)), outcome, LinksMap(eps), goal);
    p' := p + |season|;
  }

  /** The season loop: every season of `keys`, in order, until an episode fails. */
  method UpdateSeasons(keys: seq<int>, entries: map<int, seq<Episode>>, ctx: Access, ghost step: StepFn,
                       ghost eps: seq<Episode>)
    returns (outcome: SetOutcome)
    requires StepOf(step, ctx)
    requires KeysPresent(keys, entries) && eps == Flatten(keys, entries)
    modifies eps
    ensures (outcome, LinksMap(eps)) == Run(step, eps, old(LinksMap(eps)))
  {
    ghost var goal := Run(step, eps, LinksMap(eps));
    ghost var p: nat := 0;
    assert eps[p..] == eps;
    var i := 0;
    while i < |keys|
      invariant 0 <= i <= |keys| && p <= |eps|
      invariant eps[p..] == Flatten(keys[i..], entries)
      invariant Run(step, eps[p..], LinksMap(eps)) == goal
    {
      outcome, p := UpdateNextSeason(keys, entries, ctx, step, eps, i, p, goal);
      if !outcome.Done? {
        return;
      }
      i := i + 1;
    }
    assert eps[p..] == [];
    outcome := Done;
  }

  /**
   * set_m3u8_n_subtitle for a series: season by season, episode by episode,
   * every episode's links and the outcome being those of the episode loop.
   */
  method SetSeriesM3u8NSubtitle(series: Series, quality: int, api: AccessApi) returns (outcome: SetOutcome)
    requires KeysPresent(series.seasons.keys, series.seasons.entries)
    modifies Flatten(series.seasons.keys, series.seasons.entries)
    ensures var eps := Flatten(series.seasons.keys, series.seasons.entries);
      (outcome, LinksMap(eps)) ==
        Run(EpisodeSteps(Access(Netloc(series.frameLink), series.hash, series.expiry, quality, api)), eps, old(LinksMap(eps)))
  {
    var ctx := Access(Netloc(series.frameLink), series.hash, series.expiry, quality, api);
    outcome := UpdateSeasons(series.seasons.keys, series.seasons.entries, ctx, EpisodeSteps(ctx),
                             Flatten(series.seasons.keys, series.seasons.entries));
  }
}

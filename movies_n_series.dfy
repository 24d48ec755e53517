/**
 * The logic of moviesNseries.py, apart from its user interface: titles
 * stripped of the characters a file name may not hold, the check of the
 * configured download quality, and get_download_choice, which lists a
 * series' seasons and episodes in a dialog and merges the user's picks
 * into the season map that is then downloaded.
 */
module MoviesNSeries {
  import opened Basics
  import opened Text
  import opened OrderedDict
  import opened Content

  // ---------------------------------------------------------------------------
  // Titles as file names
  // ---------------------------------------------------------------------------

  /** The characters of the program's title pattern; they are deleted from titles. */
  const Forbidden: set<char> := {'\\', '/', '*', '?', ':', '"', '<', '>', '|'}

  /** The title with every forbidden character deleted, as `re.sub` does it. */
  function Sanitize(title: string): string
  {
    RemoveChars(title, Forbidden)
  }

  /** No forbidden character is left, and every other character occurs as often as before. */
  lemma {:induction false} SanitizeSpec(title: string)
    ensures forall i :: 0 <= i < |Sanitize(title)| ==> Sanitize(title)[i] !in Forbidden
    ensures forall c :: multiset(Sanitize(title))[c] == if c in Forbidden then 0 else multiset(title)[c]
  {
    forall c
      ensures multiset(Sanitize(title))[c] == if c in Forbidden then 0 else multiset(title)[c]
    {
      RemoveCharsCounts(title, Forbidden, c);
    }
  }

  /** Sanitising works piece by piece, so the kept characters keep their order. */
  lemma {:induction false} SanitizeAppend(a: string, b: string)
    ensures Sanitize(a + b) == Sanitize(a) + Sanitize(b)
  {
    RemoveCharsAppend(a, b, Forbidden);
  }

  /** A title without forbidden characters is left as it is. */
  lemma {:induction false} SanitizeClean(title: string)
    requires forall i :: 0 <= i < |title| ==> title[i] !in Forbidden
    ensures Sanitize(title) == title
  {
    RemoveCharsClean(title, Forbidden);
  }

  /** Sanitising twice is sanitising once. */
  lemma {:induction false} SanitizeIdempotent(title: string)
    ensures Sanitize(Sanitize(title)) == Sanitize(title)
  {
    SanitizeClean(Sanitize(title));
  }

  /** `content.title = re.sub(...)` on a movie before its download. */
  method SanitizeMovieTitle(movie: Movie)
    modifies movie`title
    ensures movie.title == Sanitize(old(movie.title))
  {
    movie.title := Sanitize(movie.title);
  }

  /** `content.title = re.sub(...)` on a series before its download. */
  method SanitizeSeriesTitle(series: Series)
    modifies series`title
    ensures series.title == Sanitize(old(series.title))
  {
    series.title := Sanitize(series.title);
  }

  /** The sanitised title of a movie or a series, which names its folder or file. */
  method SanitizeTitle(content: MovieOrSeries)
    modifies if content.MovieItem? then {content.movie} else {}
    modifies if content.SeriesItem? then {content.series} else {}
    ensures content.MovieItem? ==> content.movie.title == Sanitize(old(content.movie.title))
    ensures content.MovieItem? ==>
      unchanged(content.movie`id, content.movie`hash, content.movie`expiry, content.movie`frameLink,
                content.movie`m3u8, content.movie`subtitle)
    ensures content.SeriesItem? ==> content.series.title == Sanitize(old(content.series.title))
    ensures content.SeriesItem? ==>
      unchanged(content.series`hash, content.series`expiry, content.series`frameLink, content.series`seasons)
  {
    match content
    case MovieItem(movie) => SanitizeMovieTitle(movie);
    case SeriesItem(series) => SanitizeSeriesTitle(series);
  }

  // ---------------------------------------------------------------------------
  // The download quality of Config.json
  // ---------------------------------------------------------------------------

  const QualityKey := "download_quality"
  const ValidQualities: seq<int> := [1080, 720, 480]
  const ConfigMissing := "Config.json not found!"
  const InvalidQuality := "Invalid download quality! Valid Options- 1080, 720, 480"

  /** A member of the configuration object, as far as `int()` tells values apart. */
  datatype JsonValue = JsonInt(n: int) | JsonString(s: string) | JsonOther

  /** Config.json: missing, not JSON at all, or a JSON object. */
  datatype ConfigFile = NoFile | NotJson | JsonObject(members: map<string, JsonValue>)

  /** How the configuration block of the program's start ends. */
  datatype Startup =
    | Proceed(quality: int)    // the quality to ask the provider for
    | Exit(message: string)    // the message shown before the program exits
    | Raised(error: PyError)   // an exception nobody catches

  /** Python's `int(v)`. */
  function PyInt(v: JsonValue): (r: Result<int, PyError>)
    ensures v.JsonInt? ==> r == Success(v.n)
    ensures v.JsonString? ==> (r.Success? <==> IntOf(v.s).Some?)
    ensures r.Failure? ==> r.error == (if v.JsonOther? then TypeError else ValueError)
  {
    match v
    case JsonInt(n) => Success(n)
    case JsonString(s) => (match IntOf(s) case Some(n) => Success(n) case None => Failure(ValueError))
    case JsonOther => Failure(TypeError)
  }

  /**
   * `quality = int(config['download_quality'])` followed by `assert quality in
   * [1080, 720, 480]`, with the handlers of FileNotFoundError, AssertionError
   * and ValueError (a file that is not JSON raises a ValueError too).
   */
  function ReadQuality(config: ConfigFile): (r: Startup)
    ensures r.Proceed? <==>
      config.JsonObject? && QualityKey in config.members
      && PyInt(config.members[QualityKey]).Success?
      && PyInt(config.members[QualityKey]).value in ValidQualities
    ensures r.Proceed? ==> r.quality in ValidQualities && r == Proceed(PyInt(config.members[QualityKey]).value)
    ensures config.NoFile? <==> r == Exit(ConfigMissing)
    ensures r.Exit? && !config.NoFile? ==> r.message == InvalidQuality
    ensures r.Raised? <==>
      config.JsonObject? && (QualityKey !in config.members || config.members[QualityKey].JsonOther?)
    ensures r.Raised? ==> r.error == (if QualityKey in config.members then TypeError else KeyError)
  {
    match config
    case NoFile => Exit(ConfigMissing)
    case NotJson => Exit(InvalidQuality)
    case JsonObject(members) =>
      if QualityKey !in members then Raised(KeyError)
      else match PyInt(members[QualityKey])
        case Failure(ValueError) => Exit(InvalidQuality)
        case Failure(e) => Raised(e)
        case Success(q) => if q in ValidQualities then Proceed(q) else Exit(InvalidQuality)
  }

  // ---------------------------------------------------------------------------
  // The season and episode dialog
  // ---------------------------------------------------------------------------

  /** The value of a dialog entry: `(season, range(count))` or `(season, index)`. */
  datatype Pick = Whole(season: int, count: nat) | Single(season: int, index: int)

  datatype Item = Item(value: Pick, caption: string)

  /**
   * Where an episode entry points into its season's list: the program uses the
   * episode's number minus one; its position in the list is what it needs.
   */
  datatype Indexing = ByNumber | ByPosition

  function SeasonLabel(season: int): string
  {
    "Season " + Decimal(season)
  }

  function EpisodeLabel(e: Episode): string
  {
    "    Episode " + Decimal(e.number) + " | " + e.title
  }

  function EpisodeIndex(e: Episode, position: nat, how: Indexing): int
  {
    if how == ByNumber then e.number - 1 else position
  }

  /** The entry of the episode at `position` in its season's list. */
  function EpisodeItem(season: int, e: Episode, position: nat, how: Indexing): Item
  {
    Item(Single(season, EpisodeIndex(e, position, how)), EpisodeLabel(e))
  }

  function EpisodeItems(season: int, eps: seq<Episode>, how: Indexing): seq<Item>
  {
    seq(|eps|, k requires 0 <= k < |eps| => EpisodeItem(season, eps[k], k, how))
  }

  /** One season's entries: the whole season, then each of its episodes. */
  function SeasonItems(season: int, eps: seq<Episode>, how: Indexing): seq<Item>
  {
    [Item(Whole(season, |eps|), SeasonLabel(season))] + EpisodeItems(season, eps, how)
  }

  /** The dialog's entries, season after season in the map's order. */
  function DialogValues(keys: seq<int>, entries: map<int, seq<Episode>>, how: Indexing): seq<Item>
    requires KeysPresent(keys, entries)
  {
    if keys == [] then []
    else DialogValues(keys[..|keys| - 1], entries, how) + SeasonItems(keys[|keys| - 1], entries[keys[|keys| - 1]], how)
  }

  /** The loop that builds the dialog's values, as the program writes it. */
  method BuildDialogValues(seasons: Seasons) returns (values: seq<Item>)
    requires KeysPresent(seasons.keys, seasons.entries)
    ensures values == DialogValues(seasons.keys, seasons.entries, ByNumber)
  {
    values := [];
    var i := 0;
    while i < |seasons.keys|
      invariant 0 <= i <= |seasons.keys|
      invariant KeysPresent(seasons.keys[..i], seasons.entries)
      invariant values == DialogValues(seasons.keys[..i], seasons.entries, ByNumber)
    {
      var season := seasons.keys[i];
      var items := BuildSeasonItems(season, seasons.entries[season]);
      values := values + items;
      assert seasons.keys[..i + 1][..i] == seasons.keys[..i];
      i := i + 1;
    }
    assert seasons.keys[..i] == seasons.keys;
  }

  /** One season's part of that loop. */
  method BuildSeasonItems(season: int, eps: seq<Episode>) returns (items: seq<Item>)
    ensures items == SeasonItems(season, eps, ByNumber)
  {
    var rows: seq<Item> := [];
    var k := 0;
    while k < |eps|
      invariant 0 <= k <= |eps| && |rows| == k
      invariant forall t :: 0 <= t < k ==> rows[t] == EpisodeItem(season, eps[t], t, ByNumber)
    {
      rows := rows + [Item(Single(season, eps[k].number - 1), EpisodeLabel(eps[k]))];
      k := k + 1;
    }
    assert rows == EpisodeItems(season, eps, ByNumber);
    items := [Item(Whole(season, |eps|), SeasonLabel(season))] + rows;
  }

  /**
   * An entry names a season of the map; a whole-season entry covers all of
   * it, and by position an episode entry points at the very episode its label
   * names.
   */
  ghost predicate WellPlaced(it: Item, entries: map<int, seq<Episode>>, how: Indexing)
  {
    && it.value.season in entries
    && (it.value.Whole? ==> it.value.count == |entries[it.value.season]|)
    && (how == ByPosition && it.value.Single? ==>
          0 <= it.value.index < |entries[it.value.season]|
          && it.caption == EpisodeLabel(entries[it.value.season][it.value.index]))
  }

  lemma SeasonItemPlaced(season: int, entries: map<int, seq<Episode>>, how: Indexing, k: int)
    requires season in entries && 0 <= k < |SeasonItems(season, entries[season], how)|
    ensures WellPlaced(SeasonItems(season, entries[season], how)[k], entries, how)
  {
    if k > 0 {
      assert SeasonItems(season, entries[season], how)[k] == EpisodeItems(season, entries[season], how)[k - 1];
    }
  }

  /** Every entry of the dialog is well placed. */
  lemma {:induction false} ItemShape(keys: seq<int>, entries: map<int, seq<Episode>>, how: Indexing, i: int)
    requires KeysPresent(keys, entries) && 0 <= i < |DialogValues(keys, entries, how)|
    ensures WellPlaced(DialogValues(keys, entries, how)[i], entries, how)
  {
    var init := keys[..|keys| - 1];
    var last := keys[|keys| - 1];
    var before := DialogValues(init, entries, how);
    if i >= |before| {
      SeasonItemPlaced(last, entries, how, i - |before|);
    } else {
      ItemShape(init, entries, how, i);
    }
  }

  /**
   * As written, an episode numbered 2 that is the only episode of its season is
   * listed under index 1, which that season's list does not have.
   */
  lemma NumberPastTheEnd(season: int, e: Episode)
    requires e.number == 2
    ensures DialogValues([season], map[season := [e]], ByNumber)[1].value == Single(season, 1)
    ensures PyIndex([e], 1) == None
  {
    assert [season][..0] == [];
  }

  /**
   * As written, an episode numbered 0 is listed under index -1, which Python
   * reads as the season's last episode: the download gets the wrong episode.
   */
  lemma NumberZeroWraps(season: int, e0: Episode, e1: Episode)
    requires e0.number == 0 && e1.number == 1 && e0 != e1
    ensures DialogValues([season], map[season := [e0, e1]], ByNumber)[1] == Item(Single(season, -1), EpisodeLabel(e0))
    ensures PyIndex([e0, e1], -1) == Some(e1)
  {
    assert [season][..0] == [];
  }

  // ---------------------------------------------------------------------------
  // Sequences as the merge uses them
  // ---------------------------------------------------------------------------

  /** The elements of `xs` that satisfy `f`, in order. */
  function Filter<T>(xs: seq<T>, f: T -> bool): seq<T>
  {
    if xs == [] then [] else (if f(xs[0]) then [xs[0]] else []) + Filter(xs[1..], f)
  }

  /** The filtered list holds exactly the elements of `xs` that satisfy `f`. */
  lemma {:induction false} FilterMembers<T(!new)>(xs: seq<T>, f: T -> bool)
    ensures forall x :: x in Filter(xs, f) <==> x in xs && f(x)
  {
    if xs != [] {
      FilterMembers(xs[1..], f);
      assert xs == [xs[0]] + xs[1..];
    }
  }

  /** A filter every element passes keeps the whole list. */
  lemma {:induction false} FilterAll<T>(xs: seq<T>, f: T -> bool)
    requires forall i :: 0 <= i < |xs| ==> f(xs[i])
    ensures Filter(xs, f) == xs
  {
    if xs != [] {
      FilterAll(xs[1..], f);
    }
  }

  /** Python's `list.remove(x)`: the first occurrence of `x` goes. */
  function Remove<T(==)>(xs: seq<T>, x: T): seq<T>
    requires x in xs
  {
    if xs[0] == x then xs[1..] else [xs[0]] + Remove(xs[1..], x)
  }

  function NotIn<T(==)>(gone: set<T>): T -> bool
  {
    (x: T) => x !in gone
  }

  lemma {:induction false} FilterNoDup<T(!new)>(xs: seq<T>, f: T -> bool)
    requires NoDup(xs)
    ensures NoDup(Filter(xs, f))
  {
    if xs != [] {
      assert NoDup(xs[1..]) by {
        forall i, j | 0 <= i < j < |xs[1..]| ensures xs[1..][i] != xs[1..][j] {
          assert xs[1..][i] == xs[i + 1] && xs[1..][j] == xs[j + 1];
        }
      }
      FilterNoDup(xs[1..], f);
      FilterMembers(xs[1..], f);
      var rest := Filter(xs[1..], f);
      if f(xs[0]) {
        assert xs[0] !in xs[1..] by {
          forall j | 0 <= j < |xs[1..]| ensures xs[1..][j] != xs[0] {
            assert xs[1..][j] == xs[j + 1];
          }
        }
        assert xs[0] !in rest;
        var r := [xs[0]] + rest;
        forall i, j | 0 <= i < j < |r| ensures r[i] != r[j] {
          if i == 0 {
            assert r[j] == rest[j - 1];
          } else {
            assert r[i] == rest[i - 1] && r[j] == rest[j - 1];
          }
        }
      } else {
        assert Filter(xs, f) == rest;
      }
    }
  }

  /** Filters that agree on every element of `xs` give the same result. */
  lemma {:induction false} FilterAgree<T(!new)>(xs: seq<T>, f: T -> bool, g: T -> bool)
    requires forall i :: 0 <= i < |xs| ==> f(xs[i]) == g(xs[i])
    ensures Filter(xs, f) == Filter(xs, g)
  {
    if xs != [] {
      FilterAgree(xs[1..], f, g);
    }
  }

  /** Filtering twice is filtering once by both conditions. */
  lemma {:induction false} FilterTwice<T(!new)>(xs: seq<T>, f: T -> bool, g: T -> bool, h: T -> bool)
    requires forall i :: 0 <= i < |xs| ==> h(xs[i]) == (f(xs[i]) && g(xs[i]))
    ensures Filter(Filter(xs, f), g) == Filter(xs, h)
  {
    if xs != [] {
      FilterTwice(xs[1..], f, g, h);
      var once := Filter(xs, f);
      if f(xs[0]) {
        assert once == [xs[0]] + Filter(xs[1..], f);
        assert once[0] == xs[0] && once[1..] == Filter(xs[1..], f);
        assert Filter(once, g) == (if g(xs[0]) then [xs[0]] else []) + Filter(once[1..], g);
      } else {
        assert once == Filter(xs[1..], f);
      }
    }
  }

  /** Removing one more element of a list without duplicates. */
  lemma {:induction false} RemoveOneMore<T(!new)>(xs: seq<T>, gone: set<T>, x: T)
    requires NoDup(xs) && x in xs && x !in gone
    ensures x in Filter(xs, NotIn(gone))
    ensures Remove(Filter(xs, NotIn(gone)), x) == Filter(xs, NotIn(gone + {x}))
  {
    var h := xs[0];
    var t := xs[1..];
    assert NoDup(t) by {
      forall i, j | 0 <= i < j < |t| ensures t[i] != t[j] {
        assert t[i] == xs[i + 1] && t[j] == xs[j + 1];
      }
    }
    assert Filter(xs, NotIn(gone)) == (if h !in gone then [h] else []) + Filter(t, NotIn(gone));
    assert Filter(xs, NotIn(gone + {x})) == (if h !in gone + {x} then [h] else []) + Filter(t, NotIn(gone + {x}));
    if h == x {
      assert x !in t by {
        forall j | 0 <= j < |t| ensures t[j] != x {
          assert t[j] == xs[j + 1];
        }
      }
      FilterAgree(t, NotIn(gone), NotIn(gone + {x}));
    } else {
      assert x in t;
      RemoveOneMore(t, gone, x);
      if h !in gone {
        var kept := Filter(xs, NotIn(gone));
        assert kept == [h] + Filter(t, NotIn(gone));
        assert kept[0] == h && kept[1..] == Filter(t, NotIn(gone));
        assert Remove(kept, x) == [h] + Remove(kept[1..], x);
      } else {
        assert Filter(xs, NotIn(gone)) == Filter(t, NotIn(gone));
        assert h in gone + {x};
        assert Filter(xs, NotIn(gone + {x})) == Filter(t, NotIn(gone + {x}));
      }
    }
  }

  // ---------------------------------------------------------------------------
  // Merging the picks
  // ---------------------------------------------------------------------------

  /**
   * Picks as the dialog hands them back: no pick twice, each about a season of
   * the map, and a whole-season pick covering its whole season.
   */
  predicate FromDialog(seasons: Seasons, picks: seq<Pick>)
  {
    && NoDup(picks)
    && forall p | p in picks ::
         && p.season in seasons.entries
         && (p.Whole? ==> p.count == |seasons.entries[p.season]|)
  }

  predicate IsWhole(p: Pick)
  {
    p.Whole?
  }

  predicate IsSingle(p: Pick)
  {
    p.Single?
  }

  /** The seasons of some picks. */
  function SeasonSet(ps: seq<Pick>): (r: set<int>)
    ensures forall i :: 0 <= i < |ps| ==> ps[i].season in r
    ensures forall s :: s in r ==> exists i :: 0 <= i < |ps| && ps[i].season == s
  {
    if ps == [] then {} else SeasonSet(ps[..|ps| - 1]) + {ps[|ps| - 1].season}
  }

  /** No two of the picks are about the same season. */
  predicate DistinctSeasons(ps: seq<Pick>)
  {
    forall a, b :: 0 <= a < b < |ps| ==> ps[a].season != ps[b].season
  }

  /** The whole-season picks, in the order picked. */
  function Wholes(picks: seq<Pick>): (ws: seq<Pick>)
    ensures forall i :: 0 <= i < |ws| ==> ws[i] in picks && ws[i].Whole?
  {
    FilterMembers(picks, IsWhole);
    Filter(picks, IsWhole)
  }

  /** The seasons picked whole. */
  function WholeSeasons(picks: seq<Pick>): set<int>
  {
    SeasonSet(Wholes(picks))
  }

  function KeptBy(whole: set<int>): Pick -> bool
  {
    (p: Pick) => p.Single? && p.season !in whole
  }

  /** The single-episode picks of seasons not picked whole, in the order picked. */
  function Kept(picks: seq<Pick>): (cs: seq<Pick>)
    ensures forall i :: 0 <= i < |cs| ==> cs[i] in picks && cs[i].Single? && cs[i].season !in WholeSeasons(picks)
  {
    FilterMembers(picks, KeptBy(WholeSeasons(picks)));
    Filter(picks, KeptBy(WholeSeasons(picks)))
  }

  /**
   * `seasons[c.season][c.index]`: a season missing from the map raises
   * KeyError, a range used as a list index TypeError, and an index outside
   * the season's list IndexError.
   */
  function Resolve(c: Pick, seasons: map<int, seq<Episode>>): Result<Episode, PyError>
  {
    if c.season !in seasons then Failure(KeyError)
    else if c.Whole? then Failure(TypeError)
    else match PyIndex(seasons[c.season], c.index)
      case Some(e) => Success(e)
      case None => Failure(IndexError)
  }

  /** `choice.setdefault(season, seasons[season])` for each whole-season pick in turn. */
  function AddWholes(d: Seasons, ws: seq<Pick>, seasons: map<int, seq<Episode>>): (d': Seasons)
    requires forall i :: 0 <= i < |ws| ==> ws[i].season in seasons
    ensures d.Valid() ==> d'.Valid()
    decreases |ws|
  {
    if ws == [] then d
    else AddWholes(SetDefault(d, ws[0].season, seasons[ws[0].season]), ws[1..], seasons)
  }

  /** `choice.setdefault(season, []).append(seasons[season][index])` for each single pick in turn. */
  function AddSingles(d: Seasons, cs: seq<Pick>, seasons: map<int, seq<Episode>>): Result<Seasons, PyError>
    decreases |cs|
  {
    if cs == [] then Success(d)
    else match Resolve(cs[0], seasons)
      case Failure(err) => Failure(err)
      case Success(e) => AddSingles(AppendTo(d, cs[0].season, e), cs[1..], seasons)
  }

  /** The season map the picks make: whole seasons first, then the other picked episodes. */
  function Merge(seasons: Seasons, picks: seq<Pick>): (r: Result<Seasons, PyError>)
    requires FromDialog(seasons, picks)
    ensures r.Failure? ==> r.error == IndexError
  {
    var d := AddWholes(Empty(), Wholes(picks), seasons.entries);
    AddSinglesFails(d, Kept(picks), seasons.entries);
    AddSingles(d, Kept(picks), seasons.entries)
  }

  /** The episodes the picks `cs` name in season `s`, in the order picked. */
  function Picked(cs: seq<Pick>, s: int, seasons: map<int, seq<Episode>>): seq<Episode>
  {
    if cs == [] then []
    else
      var mine := if cs[0].season == s && Resolve(cs[0], seasons).Success? then [Resolve(cs[0], seasons).value] else [];
      mine + Picked(cs[1..], s, seasons)
  }

  /** Two whole-season picks are about two different seasons. */
  lemma WholesDistinct(seasons: Seasons, picks: seq<Pick>)
    requires FromDialog(seasons, picks)
    ensures NoDup(Wholes(picks)) && DistinctSeasons(Wholes(picks))
  {
    var ws := Wholes(picks);
    FilterNoDup(picks, IsWhole);
    forall a, b | 0 <= a < b < |ws| ensures ws[a].season != ws[b].season {
      assert ws[a] != ws[b];
    }
  }

  lemma SeasonSetCons(ps: seq<Pick>)
    requires ps != []
    ensures forall s :: s in SeasonSet(ps) <==> s == ps[0].season || s in SeasonSet(ps[1..])
  {
    forall s ensures s in SeasonSet(ps) <==> s == ps[0].season || s in SeasonSet(ps[1..]) {
      if s in SeasonSet(ps) {
        var i :| 0 <= i < |ps| && ps[i].season == s;
        if i > 0 {
          assert ps[1..][i - 1] == ps[i];
        }
      }
      if s in SeasonSet(ps[1..]) {
        var i :| 0 <= i < |ps[1..]| && ps[1..][i].season == s;
        assert ps[i + 1].season == s;
      }
    }
  }

  /** Adding whole seasons adds their seasons, each with its full list; seasons already there keep theirs. */
  lemma {:induction false} AddWholesEntries(d: Seasons, ws: seq<Pick>, seasons: map<int, seq<Episode>>, s: int)
    requires forall i :: 0 <= i < |ws| ==> ws[i].season in seasons
    ensures s in AddWholes(d, ws, seasons).entries <==> s in d.entries || s in SeasonSet(ws)
    ensures s in d.entries ==> AddWholes(d, ws, seasons).entries[s] == d.entries[s]
    ensures s in AddWholes(d, ws, seasons).entries && s !in d.entries ==>
      s in seasons && AddWholes(d, ws, seasons).entries[s] == seasons[s]
    decreases |ws|
  {
    if ws != [] {
      var d1 := SetDefault(d, ws[0].season, seasons[ws[0].season]);
      AddWholesEntries(d1, ws[1..], seasons, s);
      SeasonSetCons(ws);
    }
  }

  /** The seasons of some picks, in order. */
  function SeasonSeq(ps: seq<Pick>): seq<int>
  {
    seq(|ps|, i requires 0 <= i < |ps| => ps[i].season)
  }

  lemma SeasonSeqCons(ps: seq<Pick>)
    requires ps != []
    ensures SeasonSeq(ps) == [ps[0].season] + SeasonSeq(ps[1..])
  {
    assert forall i :: 0 <= i < |ps| - 1 ==> SeasonSeq(ps)[i + 1] == SeasonSeq(ps[1..])[i];
  }

  /** New whole seasons of distinct numbers go at the end of the key order, in the order picked. */
  lemma {:induction false} AddWholesKeys(d: Seasons, ws: seq<Pick>, seasons: map<int, seq<Episode>>)
    requires forall i :: 0 <= i < |ws| ==> ws[i].season in seasons
    requires forall i :: 0 <= i < |ws| ==> ws[i].season !in d.entries
    requires DistinctSeasons(ws)
    ensures AddWholes(d, ws, seasons).keys == d.keys + SeasonSeq(ws)
    decreases |ws|
  {
    if ws == [] {
      assert d.keys + SeasonSeq(ws) == d.keys;
    } else {
      var d1 := SetDefault(d, ws[0].season, seasons[ws[0].season]);
      var tail := ws[1..];
      assert d1.keys == d.keys + [ws[0].season];
      forall i | 0 <= i < |tail| ensures tail[i].season !in d1.entries {
        assert tail[i] == ws[i + 1];
        assert ws[0].season != ws[i + 1].season;
      }
      assert DistinctSeasons(tail) by {
        forall a, b | 0 <= a < b < |tail| ensures tail[a].season != tail[b].season {
          assert tail[a] == ws[a + 1] && tail[b] == ws[b + 1];
        }
      }
      AddWholesKeys(d1, tail, seasons);
      SeasonSeqCons(ws);
      AppendAssoc(d.keys, [ws[0].season], SeasonSeq(tail));
    }
  }

  /** Every single pick points into its season's list. */
  ghost predicate AllResolve(cs: seq<Pick>, seasons: map<int, seq<Episode>>)
  {
    forall i :: 0 <= i < |cs| ==> Resolve(cs[i], seasons).Success?
  }

  /** Adding single picks fails, with an IndexError, exactly when one of them points outside its list. */
  lemma {:induction false} AddSinglesFails(d: Seasons, cs: seq<Pick>, seasons: map<int, seq<Episode>>)
    requires forall i :: 0 <= i < |cs| ==> cs[i].Single? && cs[i].season in seasons
    ensures AddSingles(d, cs, seasons).Success? <==> AllResolve(cs, seasons)
    ensures AddSingles(d, cs, seasons).Failure? ==> AddSingles(d, cs, seasons).error == IndexError
    decreases |cs|
  {
    if cs != [] && Resolve(cs[0], seasons).Success? {
      AddSinglesFails(AppendTo(d, cs[0].season, Resolve(cs[0], seasons).value), cs[1..], seasons);
      if AllResolve(cs[1..], seasons) {
        forall i | 0 <= i < |cs| ensures Resolve(cs[i], seasons).Success? {
          if i > 0 {
            assert cs[i] == cs[1..][i - 1];
          }
        }
      }
    }
  }

  /** Adding single picks keeps the keys already there, in front. */
  lemma {:induction false} AddSinglesKeys(d: Seasons, cs: seq<Pick>, seasons: map<int, seq<Episode>>)
    ensures AddSingles(d, cs, seasons).Success? ==> d.keys <= AddSingles(d, cs, seasons).value.keys
    decreases |cs|
  {
    if cs != [] && Resolve(cs[0], seasons).Success? {
      var d1 := AppendTo(d, cs[0].season, Resolve(cs[0], seasons).value);
      AddSinglesKeys(d1, cs[1..], seasons);
    }
  }

  /** The seasons present after adding single picks are those before and those picked. */
  lemma {:induction false} AddSinglesSeasons(d: Seasons, cs: seq<Pick>, seasons: map<int, seq<Episode>>, s: int)
    ensures var r := AddSingles(d, cs, seasons);
      r.Success? ==> (s in r.value.entries <==> s in d.entries || s in SeasonSet(cs))
    decreases |cs|
  {
    if cs != [] && Resolve(cs[0], seasons).Success? {
      AddSinglesSeasons(AppendTo(d, cs[0].season, Resolve(cs[0], seasons).value), cs[1..], seasons, s);
      SeasonSetCons(cs);
    }
  }

  /** Adding single picks to a well-formed map leaves a well-formed map. */
  lemma {:induction false} AddSinglesValid(d: Seasons, cs: seq<Pick>, seasons: map<int, seq<Episode>>)
    requires d.Valid()
    ensures AddSingles(d, cs, seasons).Success? ==> AddSingles(d, cs, seasons).value.Valid()
    decreases |cs|
  {
    if cs != [] && Resolve(cs[0], seasons).Success? {
      AddSinglesValid(AppendTo(d, cs[0].season, Resolve(cs[0], seasons).value), cs[1..], seasons);
    }
  }

  /** The list under season `s`, or the empty list `setdefault` would start there. */
  function ListAt(d: Seasons, s: int): seq<Episode>
  {
    if s in d.entries then d.entries[s] else []
  }

  lemma AppendAssoc<T>(a: seq<T>, b: seq<T>, c: seq<T>)
    ensures (a + b) + c == a + (b + c)
  {
  }

  /** Adding single picks appends each episode picked in season `s` to its list, in the order picked. */
  lemma {:induction false} AddSinglesEntry(d: Seasons, cs: seq<Pick>, seasons: map<int, seq<Episode>>, s: int)
    ensures AddSingles(d, cs, seasons).Success? ==>
      ListAt(AddSingles(d, cs, seasons).value, s) == ListAt(d, s) + Picked(cs, s, seasons)
    decreases |cs|
  {
    if cs == [] {
      assert ListAt(d, s) + [] == ListAt(d, s);
    } else if Resolve(cs[0], seasons).Success? {
      var e := Resolve(cs[0], seasons).value;
      var d1 := AppendTo(d, cs[0].season, e);
      AddSinglesEntry(d1, cs[1..], seasons, s);
      var later := Picked(cs[1..], s, seasons);
      if cs[0].season == s {
        assert ListAt(d1, s) == ListAt(d, s) + [e];
        assert Picked(cs, s, seasons) == [e] + later;
        AppendAssoc(ListAt(d, s), [e], later);
      } else {
        assert ListAt(d1, s) == ListAt(d, s);
        assert Picked(cs, s, seasons) == later;
      }
    }
  }

  /** The merge fails, with an IndexError, exactly when a kept single pick points outside its season's list. */
  lemma MergeFails(seasons: Seasons, picks: seq<Pick>)
    requires FromDialog(seasons, picks)
    ensures Merge(seasons, picks).Success? <==> AllResolve(Kept(picks), seasons.entries)
    ensures Merge(seasons, picks).Failure? ==> Merge(seasons, picks).error == IndexError
  {
    AddSinglesFails(AddWholes(Empty(), Wholes(picks), seasons.entries), Kept(picks), seasons.entries);
  }

  /** A successful merge lists the whole seasons first, in the order picked. */
  lemma MergeKeys(seasons: Seasons, picks: seq<Pick>)
    requires FromDialog(seasons, picks) && Merge(seasons, picks).Success?
    ensures SeasonSeq(Wholes(picks)) <= Merge(seasons, picks).value.keys
  {
    var ws := Wholes(picks);
    WholesDistinct(seasons, picks);
    AddWholesKeys(Empty(), ws, seasons.entries);
    assert AddWholes(Empty(), ws, seasons.entries).keys == SeasonSeq(ws);
    AddSinglesKeys(AddWholes(Empty(), ws, seasons.entries), Kept(picks), seasons.entries);
  }

  /** A successful merge is a well-formed map: each season listed once, and listed exactly when present. */
  lemma MergeValid(seasons: Seasons, picks: seq<Pick>)
    requires FromDialog(seasons, picks) && Merge(seasons, picks).Success?
    ensures Merge(seasons, picks).value.Valid()
  {
    AddSinglesValid(AddWholes(Empty(), Wholes(picks), seasons.entries), Kept(picks), seasons.entries);
  }

  /** After a successful merge, a season is present exactly when it was picked whole or one of its kept episodes was picked. */
  lemma MergeSeasons(seasons: Seasons, picks: seq<Pick>, s: int)
    requires FromDialog(seasons, picks) && Merge(seasons, picks).Success?
    ensures s in Merge(seasons, picks).value.entries <==> s in WholeSeasons(picks) || s in SeasonSet(Kept(picks))
  {
    var ws := Wholes(picks);
    AddWholesEntries(Empty(), ws, seasons.entries, s);
    AddSinglesSeasons(AddWholes(Empty(), ws, seasons.entries), Kept(picks), seasons.entries, s);
  }

  /** After a successful merge, a season picked whole holds its full list of episodes. */
  lemma MergeWholeSeason(seasons: Seasons, picks: seq<Pick>, s: int)
    requires FromDialog(seasons, picks) && Merge(seasons, picks).Success? && s in WholeSeasons(picks)
    ensures s in Merge(seasons, picks).value.entries && Merge(seasons, picks).value.entries[s] == seasons.entries[s]
  {
    var kept := Kept(picks);
    var d0 := AddWholes(Empty(), Wholes(picks), seasons.entries);
    AddWholesEntries(Empty(), Wholes(picks), seasons.entries, s);
    AddSinglesSeasons(d0, kept, seasons.entries, s);
    AddSinglesEntry(d0, kept, seasons.entries, s);
    KeptAvoidsWhole(picks, s, seasons.entries);
    assert ListAt(d0, s) == seasons.entries[s];
    assert Merge(seasons, picks) == AddSingles(d0, kept, seasons.entries);
  }

  /** No kept pick is in a season picked whole. */
  lemma KeptAvoidsWhole(picks: seq<Pick>, s: int, seasons: map<int, seq<Episode>>)
    requires s in WholeSeasons(picks)
    ensures Picked(Kept(picks), s, seasons) == []
  {
    NoneInSeason(Kept(picks), s, seasons);
  }

  /**
   * After a successful merge, a season not picked whole holds the episodes
   * picked in it, in the order picked (no list at all when there are none).
   */
  lemma MergeSingleSeason(seasons: Seasons, picks: seq<Pick>, s: int)
    requires FromDialog(seasons, picks) && Merge(seasons, picks).Success? && s !in WholeSeasons(picks)
    ensures ListAt(Merge(seasons, picks).value, s) == Picked(Kept(picks), s, seasons.entries)
  {
    var d0 := AddWholes(Empty(), Wholes(picks), seasons.entries);
    AddWholesEntries(Empty(), Wholes(picks), seasons.entries, s);
    AddSinglesEntry(d0, Kept(picks), seasons.entries, s);
  }

  /** Picks none of which is in season `s` pick nothing there. */
  lemma {:induction false} NoneInSeason(cs: seq<Pick>, s: int, seasons: map<int, seq<Episode>>)
    requires forall i :: 0 <= i < |cs| ==> cs[i].season != s
    ensures Picked(cs, s, seasons) == []
  {
    if cs != [] {
      NoneInSeason(cs[1..], s, seasons);
    }
  }

  /** `p` is the value of one of the dialog's entries. */
  ghost predicate Offered(seasons: Seasons, how: Indexing, p: Pick)
    requires KeysPresent(seasons.keys, seasons.entries)
  {
    exists j :: 0 <= j < |DialogValues(seasons.keys, seasons.entries, how)| &&
      DialogValues(seasons.keys, seasons.entries, how)[j].value == p
  }

  /** Picks taken from the dialog's entries, none twice, are what the merge expects. */
  lemma DialogPicks(seasons: Seasons, how: Indexing, picks: seq<Pick>)
    requires KeysPresent(seasons.keys, seasons.entries) && NoDup(picks)
    requires forall p | p in picks :: Offered(seasons, how, p)
    ensures FromDialog(seasons, picks)
  {
    forall p | p in picks
      ensures p.season in seasons.entries
      ensures p.Whole? ==> p.count == |seasons.entries[p.season]|
    {
      var j :| 0 <= j < |DialogValues(seasons.keys, seasons.entries, how)| &&
        DialogValues(seasons.keys, seasons.entries, how)[j].value == p;
      ItemShape(seasons.keys, seasons.entries, how, j);
    }
  }

  /**
   * With episodes listed by position, every merge of picks from the dialog
   * succeeds, and each kept single pick resolves to the episode at its
   * position, the very episode whose caption its entry carries.
   */
  lemma ByPositionMergeSucceeds(seasons: Seasons, picks: seq<Pick>)
    requires seasons.Valid() && NoDup(picks)
    requires forall p | p in picks :: Offered(seasons, ByPosition, p)
    ensures FromDialog(seasons, picks) && Merge(seasons, picks).Success?
    ensures forall c | c in Kept(picks) :: PointsAtCaptioned(seasons, c)
  {
    DialogPicks(seasons, ByPosition, picks);
    MergeFails(seasons, picks);
    forall i | 0 <= i < |Kept(picks)| ensures Resolve(Kept(picks)[i], seasons.entries).Success? {
      OfferedResolves(seasons, Kept(picks)[i]);
    }
    forall c | c in Kept(picks) ensures PointsAtCaptioned(seasons, c) {
      OfferedResolves(seasons, c);
    }
  }

  /**
   * The single pick `c` resolves to the episode at its position in its
   * season, and every dialog entry with that value is captioned with it.
   */
  ghost predicate PointsAtCaptioned(seasons: Seasons, c: Pick)
    requires KeysPresent(seasons.keys, seasons.entries)
  {
    var values := DialogValues(seasons.keys, seasons.entries, ByPosition);
    && c.Single? && c.season in seasons.entries && 0 <= c.index < |seasons.entries[c.season]|
    && Resolve(c, seasons.entries) == Success(seasons.entries[c.season][c.index])
    && forall j :: 0 <= j < |values| && values[j].value == c ==>
         values[j].caption == EpisodeLabel(seasons.entries[c.season][c.index])
  }

  /** By position, an episode entry of the dialog points at the episode its caption names. */
  lemma OfferedResolves(seasons: Seasons, c: Pick)
    requires KeysPresent(seasons.keys, seasons.entries) && Offered(seasons, ByPosition, c) && c.Single?
    ensures Resolve(c, seasons.entries).Success? && PointsAtCaptioned(seasons, c)
  {
    var values := DialogValues(seasons.keys, seasons.entries, ByPosition);
    var j :| 0 <= j < |values| && values[j].value == c;
    ItemShape(seasons.keys, seasons.entries, ByPosition, j);
    forall j' | 0 <= j' < |values| && values[j'].value == c
      ensures values[j'].caption == EpisodeLabel(seasons.entries[c.season][c.index])
    {
      ItemShape(seasons.keys, seasons.entries, ByPosition, j');
    }
  }

  /** As written, picking the episode of `NumberPastTheEnd` makes the merge fail. */
  lemma NumberPastTheEndFails(season: int, e: Episode)
    requires e.number == 2
    ensures var seasons := Dict([season], map[season := [e]]);
      FromDialog(seasons, [Single(season, 1)]) && Merge(seasons, [Single(season, 1)]) == Failure(IndexError)
  {
    var picks := [Single(season, 1)];
    assert Wholes(picks) == [] by {
      assert Filter(picks[1..], IsWhole) == [];
    }
    assert WholeSeasons(picks) == {};
    assert Kept(picks) == picks by {
      assert KeptBy({})(picks[0]);
      assert Filter(picks, KeptBy({})) == [picks[0]] + Filter(picks[1..], KeptBy({}));
      assert picks[1..] == [];
    }
  }

  /** The outcome of the dialog. */
  datatype Choice =
    | Cancelled              // the dialog returned None
    | NothingChosen          // the dialog returned []
    | Chosen(choice: Seasons)  // the season map to download

  /**
   * get_download_choice once the dialog has answered: whole seasons are taken
   * out of the picks, single picks of those seasons are dropped, and the
   * season map is built from what is left.
   */
  method GetDownloadChoice(seasons: Seasons, answer: Option<seq<Pick>>) returns (r: Result<Choice, PyError>)
    requires seasons.Valid()
    requires answer.Some? ==> FromDialog(seasons, answer.value)
    ensures answer == None ==> r == Success(Cancelled)
    ensures answer == Some([]) ==> r == Success(NothingChosen)
    ensures answer.Some? && answer.value != [] ==>
      r == (match Merge(seasons, answer.value)
              case Success(d) => Success(Chosen(d))
              case Failure(e) => Failure(e))
  {
    if answer.None? {
      return Success(Cancelled);
    }
    var picks := answer.value;
    if picks == [] {
      return Success(NothingChosen);
    }
    var wholes := CollectWholes(picks);
    WholesDistinct(seasons, picks);
    FilterMembers(picks, IsWhole);
    var rest := RemoveWholes(picks, wholes);
    WholesRemoved(seasons, picks);
    var individual := DropSinglesOfWholes(rest, wholes);
    SinglesKept(picks);
    var d := AddWholeSeasons(seasons, wholes);
    var merged := AddSinglePicks(seasons, d, individual);
    match merged
    case Success(choice) => r := Success(Chosen(choice));
    case Failure(e) => r := Failure(e);
  }

  /** `download_choice.setdefault(season[0], seasons[season[0]])` for each whole season. */
  method AddWholeSeasons(seasons: Seasons, wholes: seq<Pick>) returns (d: Seasons)
    requires forall i :: 0 <= i < |wholes| ==> wholes[i].season in seasons.entries
    ensures d == AddWholes(Empty(), wholes, seasons.entries)
  {
    d := Empty();
    var j := 0;
    while j < |wholes|
      invariant 0 <= j <= |wholes|
      invariant AddWholes(d, wholes[j..], seasons.entries) == AddWholes(Empty(), wholes, seasons.entries)
    {
      d := SetDefault(d, wholes[j].season, seasons.entries[wholes[j].season]);
      assert wholes[j..][1..] == wholes[j + 1..];
      j := j + 1;
    }
  }

  /** `download_choice.setdefault(episode[0], []).append(seasons[episode[0]][episode[1]])` for each kept pick. */
  method AddSinglePicks(seasons: Seasons, d0: Seasons, individual: seq<Pick>) returns (r: Result<Seasons, PyError>)
    requires forall i :: 0 <= i < |individual| ==> individual[i].Single? && individual[i].season in seasons.entries
    ensures r == AddSingles(d0, individual, seasons.entries)
  {
    var d := d0;
    var m := 0;
    while m < |individual|
      invariant 0 <= m <= |individual|
      invariant AddSingles(d, individual[m..], seasons.entries) == AddSingles(d0, individual, seasons.entries)
    {
      var c := individual[m];
      var e := PyIndex(seasons.entries[c.season], c.index);
      assert individual[m..][1..] == individual[m + 1..];
      if e.None? {
        return Failure(IndexError);
      }
      d := AppendTo(d, c.season, e.value);
      m := m + 1;
    }
    return Success(d);
  }

  /** `whole_seasons = [choice for choice in download_choice if isinstance(choice[1], range)]`. */
  method CollectWholes(picks: seq<Pick>) returns (wholes: seq<Pick>)
    ensures wholes == Wholes(picks)
  {
    wholes := [];
    var i := 0;
    while i < |picks|
      invariant 0 <= i <= |picks|
      invariant wholes + Filter(picks[i..], IsWhole) == Filter(picks, IsWhole)
    {
      assert Filter(picks[i..], IsWhole) == (if picks[i].Whole? then [picks[i]] else []) + Filter(picks[i + 1..], IsWhole);
      if picks[i].Whole? {
        wholes := wholes + [picks[i]];
      }
      i := i + 1;
    }
  }

  /** The members of a list, as a set. */
  function Members(xs: seq<Pick>): set<Pick>
  {
    set x | x in xs
  }

  /** `download_choice.remove(season)` for each of `wholes`: every one of them leaves the list. */
  method RemoveWholes(picks: seq<Pick>, wholes: seq<Pick>) returns (rest: seq<Pick>)
    requires NoDup(picks) && NoDup(wholes) && forall k :: 0 <= k < |wholes| ==> wholes[k] in picks
    ensures rest == Filter(picks, NotIn(Members(wholes)))
  {
    rest := picks;
    FilterAll(picks, NotIn(Members(wholes[..0])));
    var j := 0;
    while j < |wholes|
      invariant 0 <= j <= |wholes|
      invariant rest == Filter(picks, NotIn(Members(wholes[..j])))
    {
      MembersNext(wholes, j);
      RemoveOneMore(picks, Members(wholes[..j]), wholes[j]);
      rest := Remove(rest, wholes[j]);
      j := j + 1;
    }
    assert wholes[..j] == wholes;
  }

  /** A list without repeats: its next element is not among the ones before it. */
  lemma MembersNext(xs: seq<Pick>, j: nat)
    requires NoDup(xs) && j < |xs|
    ensures xs[j] !in Members(xs[..j])
    ensures Members(xs[..j + 1]) == Members(xs[..j]) + {xs[j]}
  {
    assert xs[..j + 1] == xs[..j] + [xs[j]];
  }

  /** Once every whole-season pick is removed, what is left is the single picks. */
  lemma WholesRemoved(seasons: Seasons, picks: seq<Pick>)
    requires FromDialog(seasons, picks)
    ensures Filter(picks, NotIn(Members(Wholes(picks)))) == Filter(picks, IsSingle)
    ensures NoDup(Filter(picks, IsSingle))
    ensures forall k :: 0 <= k < |Filter(picks, IsSingle)| ==> Filter(picks, IsSingle)[k].Single?
  {
    FilterMembers(picks, IsWhole);
    FilterAgree(picks, NotIn(Members(Wholes(picks))), IsSingle);
    FilterNoDup(picks, IsSingle);
    FilterMembers(picks, IsSingle);
    var rest := Filter(picks, IsSingle);
    assert forall k :: 0 <= k < |rest| ==> rest[k] in rest;
  }

  /**
   * One pass of the inner loop: every single pick of `season` left in
   * `individual` is removed. `gone` is the set of picks removed so far; they
   * are exactly the picks of the seasons in `seen`.
   */
  method DropSeason(rest: seq<Pick>, individual: seq<Pick>, ghost gone: set<Pick>, ghost seen: set<int>, season: int)
      returns (r: seq<Pick>, ghost gone': set<Pick>)
    requires NoDup(rest) && forall k :: 0 <= k < |rest| ==> rest[k].Single?
    requires individual == Filter(rest, NotIn(gone)) && season !in seen
    requires forall k :: 0 <= k < |rest| ==> (rest[k] in gone <==> rest[k].season in seen)
    ensures r == Filter(rest, NotIn(gone'))
    ensures forall k :: 0 <= k < |rest| ==> (rest[k] in gone' <==> rest[k].season in seen || rest[k].season == season)
  {
    r, gone' := individual, gone;
    var m := 0;
    while m < |rest|
      invariant 0 <= m <= |rest|
      invariant r == Filter(rest, NotIn(gone'))
      invariant forall k :: 0 <= k < |rest| ==>
        (rest[k] in gone' <==> rest[k].season in seen || (k < m && rest[k].season == season))
    {
      var c := rest[m];
      if season == c.season && c.Single? {
        assert forall k :: 0 <= k < |rest| && k != m ==> rest[k] != c;
        RemoveOneMore(rest, gone', c);
        r := Remove(r, c);
        gone' := gone' + {c};
      }
      m := m + 1;
    }
  }

  /**
   * `individual_episodes = download_choice.copy()` and the double loop that
   * removes the single picks of each season in `wholes`.
   */
  method DropSinglesOfWholes(rest: seq<Pick>, wholes: seq<Pick>) returns (individual: seq<Pick>)
    requires NoDup(rest) && forall k :: 0 <= k < |rest| ==> rest[k].Single?
    requires DistinctSeasons(wholes)
    ensures individual == Filter(rest, KeptBy(SeasonSet(wholes)))
  {
    individual := rest;
    ghost var gone: set<Pick> := {};
    FilterAll(rest, NotIn(gone));
    var j := 0;
    while j < |wholes|
      invariant 0 <= j <= |wholes|
      invariant individual == Filter(rest, NotIn(gone))
      invariant forall k :: 0 <= k < |rest| ==> (rest[k] in gone <==> rest[k].season in SeasonSet(wholes[..j]))
    {
      SeasonSetNext(wholes, j);
      individual, gone := DropSeason(rest, individual, gone, SeasonSet(wholes[..j]), wholes[j].season);
      j := j + 1;
    }
    assert wholes[..j] == wholes;
    FilterAgree(rest, NotIn(gone), KeptBy(SeasonSet(wholes)));
  }

  /** Picks of distinct seasons: the next one's season is not among the seasons before it. */
  lemma SeasonSetNext(ws: seq<Pick>, j: nat)
    requires DistinctSeasons(ws) && j < |ws|
    ensures ws[j].season !in SeasonSet(ws[..j])
    ensures SeasonSet(ws[..j + 1]) == SeasonSet(ws[..j]) + {ws[j].season}
  {
    forall a | 0 <= a < j ensures ws[..j][a].season != ws[j].season {
      assert ws[..j][a] == ws[a];
    }
    assert ws[..j + 1][..j] == ws[..j];
  }

  /** Dropping the whole seasons' picks from the single picks leaves the kept picks. */
  lemma SinglesKept(picks: seq<Pick>)
    ensures Filter(Filter(picks, IsSingle), KeptBy(WholeSeasons(picks))) == Kept(picks)
  {
    FilterTwice(picks, IsSingle, KeptBy(WholeSeasons(picks)), KeptBy(WholeSeasons(picks)));
  }
}

/**
 * The records of utility/content.py: a movie, a series with its seasons,
 * and an episode. Their stream and subtitle links are filled in later, in
 * place, so they are classes. The `provider` attribute is always the
 * Lookmovie provider and is not represented.
 */
module Content {
  import opened OrderedDict

  class Episode {
    const number: int
    const title: string
    const id: int
    var m3u8: string
    var subtitle: string

    constructor (number: int, title: string, id: int)
      ensures this.number == number && this.title == title && this.id == id
      ensures m3u8 == "" && subtitle == ""
    {
      this.number := number;
      this.title := title;
      this.id := id;
      m3u8 := "";
      subtitle := "";
    }
  }

  class Movie {
    var title: string
    const year: int
    const link: string
    var id: int
    var hash: string
    var expiry: int
    var frameLink: string
    var m3u8: string
    var subtitle: string

    constructor (title: string, year: int, link: string)
      ensures this.title == title && this.year == year && this.link == link
      ensures id == 0 && hash == "" && expiry == 0 && frameLink == "" && m3u8 == "" && subtitle == ""
    {
      this.title := title;
      this.year := year;
      this.link := link;
      id := 0;
      hash := "";
      expiry := 0;
      frameLink := "";
      m3u8 := "";
      subtitle := "";
    }
  }

  /** A season map: season number to its episodes, in insertion order. */
  type Seasons = Dict<int, seq<Episode>>

  class Series {
    var title: string
    const year: int
    const link: string
    var hash: string
    var expiry: int
    var frameLink: string
    var seasons: Seasons

    constructor (title: string, year: int, link: string, seasons: Seasons)
      ensures this.title == title && this.year == year && this.link == link && this.seasons == seasons
      ensures hash == "" && expiry == 0 && frameLink == ""
    {
      this.title := title;
      this.year := year;
      this.link := link;
      this.seasons := seasons;
      hash := "";
      expiry := 0;
      frameLink := "";
    }
  }

  /** The `Movie | Series` union of the Python type hints. */
  datatype MovieOrSeries = MovieItem(movie: Movie) | SeriesItem(series: Series)

  /** Every key of `keys` has an entry. */
  predicate KeysPresent<V>(keys: seq<int>, entries: map<int, V>)
  {
    forall i :: 0 <= i < |keys| ==> keys[i] in entries
  }

  /** All episodes of a season map, season after season in key order. */
  function Flatten(keys: seq<int>, entries: map<int, seq<Episode>>): seq<Episode>
    requires KeysPresent(keys, entries)
  {
    if keys == [] then [] else entries[keys[0]] + Flatten(keys[1..], entries)
  }

  lemma {:induction false} FlattenAppend(a: seq<int>, b: seq<int>, entries: map<int, seq<Episode>>)
    requires KeysPresent(a, entries) && KeysPresent(b, entries)
    ensures KeysPresent(a + b, entries)
    ensures Flatten(a + b, entries) == Flatten(a, entries) + Flatten(b, entries)
    decreases |a|
  {
    if a == [] {
      assert a + b == b;
    } else {
      assert (a + b)[0] == a[0] && (a + b)[1..] == a[1..] + b;
      FlattenAppend(a[1..], b, entries);
    }
  }
}

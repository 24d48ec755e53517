/**
 * The HLS segment downloader of utility/m3u8_downloader.py: the playlist is
 * cut into segment URLs, every segment is fetched with retry-until-success,
 * and the bodies are written to one `.ts` file in playlist order.
 *
 * The network is a function from URL to the record of the attempts a GET of
 * that URL makes, first to last. The thread pool is a completion order: any
 * order in which the fetch jobs finish.
 */
module M3u8Downloader {
  import opened Basics
  import opened Text

  /** One HTTP GET as `requests` sees it. */
  datatype Attempt =
    | ConnectionFailed                                      // `requests.get` itself raised
    | Reply(status: int, text: string, content: seq<byte>)  // a response; `text` is its decoded body

  /** `resp.raise_for_status()` passes: a response whose status is neither 4xx nor 5xx. */
  predicate PassesStatus(a: Attempt)
  {
    a.Reply? && !(400 <= a.status < 600)
  }

  /** For each URL, the outcomes of the successive GETs of that URL. */
  type Network = string -> seq<Attempt>

  datatype DownloadError =
    | TransportError     // the playlist GET failed or did not pass `raise_for_status`
    | ProtectedPlaylist  // the playlist text holds the `HASH` sentinel: the `ValueError`

  // ---------------------------------------------------------------------------
  // get_segments
  // ---------------------------------------------------------------------------

  function LastIndexOf(s: string, c: char): (r: Option<nat>)
    ensures r.None? <==> c !in s
    ensures r.Some? ==> r.value < |s| && s[r.value] == c && c !in s[r.value + 1..]
  {
    if s == [] then None
    else if s[|s| - 1] == c then Some(|s| - 1)
    else
      var r := LastIndexOf(s[..|s| - 1], c);
      assert r.Some? ==> s[r.value + 1..] == s[..|s| - 1][r.value + 1..] + [s[|s| - 1]];
      r
  }

  /** `m3u8_url.rsplit('/', 1)[0] + '/'`: the URL up to and including its last `/`. */
  function BaseUrl(url: string): (base: string)
    ensures base != [] && base[|base| - 1] == '/'
    ensures '/' in url ==> base <= url && '/' !in url[|base|..]
    ensures '/' !in url ==> base == url + "/"
  {
    match LastIndexOf(url, '/')
    case Some(i) => url[..i + 1]
    case None => url + "/"
  }

  /** The comma-separated pieces of the playlist text once its newlines are deleted. */
  function Pieces(text: string): seq<string>
  {
    Split(RemoveChars(text, {'\n'}), ',')
  }

  /** The URL made from one piece: the base, the piece up to its first `.`, then `.ts`. */
  function SegmentUrl(base: string, piece: string): string
  {
    base + BeforeFirst(piece, '.') + ".ts"
  }

  /** The segment list of a playlist text that passed the checks: one URL per piece but the first. */
  function ParsedSegments(m3u8Url: string, text: string): (urls: seq<string>)
    ensures |urls| == |Pieces(text)| - 1
    ensures forall i :: 0 <= i < |urls| ==> urls[i] == SegmentUrl(BaseUrl(m3u8Url), Pieces(text)[i + 1])
  {
    var pieces := Pieces(text);
    seq(|pieces| - 1, i requires 0 <= i < |pieces| - 1 => SegmentUrl(BaseUrl(m3u8Url), pieces[i + 1]))
  }

  /** `get_segments(m3u8_url)`, given the outcome of the playlist GET. */
  method GetSegments(m3u8Url: string, playlist: Attempt) returns (r: Result<seq<string>, DownloadError>)
    ensures !PassesStatus(playlist) ==> r == Failure(TransportError)
    ensures PassesStatus(playlist) && ContainsSub(playlist.text, "HASH") ==> r == Failure(ProtectedPlaylist)
    ensures PassesStatus(playlist) && !ContainsSub(playlist.text, "HASH") ==>
      && r == Success(ParsedSegments(m3u8Url, playlist.text))
      && |r.value| == multiset(playlist.text)[',']
  {
    var baseUrl := BaseUrl(m3u8Url);
    if !PassesStatus(playlist) {
      return Failure(TransportError);
    }
    if ContainsSub(playlist.text, "HASH") {
      return Failure(ProtectedPlaylist);
    }
    var segments := Split(RemoveChars(playlist.text, {'\n'}), ',');
    segments := segments[1..];  // pop(0)
    ghost var pieces := segments;
    var i := 0;
    while i < |segments|
      invariant 0 <= i <= |segments| == |pieces|
      invariant forall k :: 0 <= k < i ==> segments[k] == SegmentUrl(baseUrl, pieces[k])
      invariant forall k :: i <= k < |segments| ==> segments[k] == pieces[k]
    {
      segments := segments[i := baseUrl + BeforeFirst(segments[i], '.') + ".ts"];
      i := i + 1;
    }
    SegmentCount(playlist.text);
    assert pieces == Pieces(playlist.text)[1..];
    assert segments == ParsedSegments(m3u8Url, playlist.text);
    r := Success(segments);
  }

  /** There are as many segments as commas in the playlist text. */
  lemma SegmentCount(text: string)
    ensures |Pieces(text)| - 1 == multiset(text)[',']
  {
    SplitCount(RemoveChars(text, {'\n'}), ',');
    RemoveCharsCounts(text, {'\n'}, ',');
  }

  /**
   * Every segment URL is the base URL, then a name free of `.`, `,` and
   * newlines, then `.ts`.
   */
  lemma SegmentUrlShape(m3u8Url: string, text: string, i: nat)
    requires i < |ParsedSegments(m3u8Url, text)|
    ensures var u := ParsedSegments(m3u8Url, text)[i];
      && BaseUrl(m3u8Url) <= u
      && |u| >= |BaseUrl(m3u8Url)| + 3
      && u[|u| - 3..] == ".ts"
      && var name := u[|BaseUrl(m3u8Url)|..|u| - 3];
         '.' !in name && ',' !in name && '\n' !in name
  {
    var base := BaseUrl(m3u8Url);
    var piece := Pieces(text)[i + 1];
    var name := BeforeFirst(piece, '.');
    BeforeFirstShape(piece, '.');
    var noNl := RemoveChars(text, {'\n'});
    var u := base + name + ".ts";
    assert ParsedSegments(m3u8Url, text)[i] == u;
    assert u[..|base|] == base && u[|u| - 3..] == ".ts";
    assert u[|base|..|u| - 3] == name;
    assert name == piece[..|name|];
    forall k | 0 <= k < |name|
      ensures name[k] != '\n' && name[k] != ','
    {
      assert name[k] == piece[k];
      assert ',' !in piece;
      JoinSplit(noNl, ',');
      PieceChars(Split(noNl, ','), i + 1, k);
    }
  }

  /** A character of a split piece is a character of the joined text. */
  lemma {:induction false} PieceChars(pieces: seq<string>, i: nat, k: nat)
    requires i < |pieces| && k < |pieces[i]|
    ensures pieces[i][k] in Join(pieces, ',')
  {
    if |pieces| > 1 {
      if i == 0 {
        assert Join(pieces, ',')[k] == pieces[0][k];
      } else {
        PieceChars(pieces[1..], i - 1, k);
        var rest := Join(pieces[1..], ',');
        var c := pieces[i][k];
        var j :| 0 <= j < |rest| && rest[j] == c;
        assert Join(pieces, ',')[|pieces[0]| + 1 + j] == c;
      }
    }
  }

  /**
   * The round trip with the playlist layout: when the text, newlines deleted,
   * is a header and then, for each segment, a name free of `.` followed by a
   * suffix that starts with `.` (the rest of the file name and the next
   * `#EXTINF` tag), all joined with commas, the segment list holds exactly
   * one URL per name, in the same order.
   */
  lemma {:induction false} ParseLayout(m3u8Url: string, text: string, header: string,
                                       names: seq<string>, suffixes: seq<string>)
    requires |names| == |suffixes|
    requires RemoveChars(text, {'\n'}) == Join([header] + Entries(names, suffixes), ',')
    requires ',' !in header
    requires forall i :: 0 <= i < |names| ==> ',' !in names[i] && '.' !in names[i]
    requires forall i :: 0 <= i < |suffixes| ==> ',' !in suffixes[i] && suffixes[i] != [] && suffixes[i][0] == '.'
    ensures ParsedSegments(m3u8Url, text)
         == seq(|names|, i requires 0 <= i < |names| => BaseUrl(m3u8Url) + names[i] + ".ts")
  {
    var pieces := [header] + Entries(names, suffixes);
    forall i | 0 <= i < |pieces|
      ensures ',' !in pieces[i]
    {
      if i > 0 {
        EntryChars(names[i - 1], suffixes[i - 1]);
      }
    }
    SplitJoin(pieces, ',');
    assert Pieces(text) == pieces;
    forall i | 0 <= i < |names|
      ensures ParsedSegments(m3u8Url, text)[i] == BaseUrl(m3u8Url) + names[i] + ".ts"
    {
      assert pieces[i + 1] == names[i] + suffixes[i];
      NameBeforeDot(names[i], suffixes[i]);
    }
  }

  /** The text before the first `.` of a name free of `.` followed by a suffix starting with `.` is the name. */
  lemma NameBeforeDot(name: string, suffix: string)
    requires '.' !in name && suffix != [] && suffix[0] == '.'
    ensures BeforeFirst(name + suffix, '.') == name
  {
    var b := BeforeFirst(name + suffix, '.');
    BeforeFirstShape(name + suffix, '.');
    assert b == (name + suffix)[..|name|] == name;
  }

  /** The entries of a playlist layout: each name followed by its suffix. */
  function Entries(names: seq<string>, suffixes: seq<string>): (es: seq<string>)
    requires |names| == |suffixes|
    ensures |es| == |names|
    ensures forall i :: 0 <= i < |es| ==> es[i] == names[i] + suffixes[i]
  {
    seq(|names|, i requires 0 <= i < |names| => names[i] + suffixes[i])
  }

  lemma EntryChars(name: string, suffix: string)
    ensures forall c :: c in name + suffix ==> c in name || c in suffix
  {
  }

  // ---------------------------------------------------------------------------
  // get_response
  // ---------------------------------------------------------------------------

  /** Some attempt in the record passes `raise_for_status`: the retry loop ends. */
  predicate EventuallyPasses(attempts: seq<Attempt>)
  {
    exists k :: 0 <= k < |attempts| && PassesStatus(attempts[k])
  }

  /** The position of the first attempt that passes. */
  function FirstPass(attempts: seq<Attempt>): (k: nat)
    requires EventuallyPasses(attempts)
    ensures k < |attempts| && PassesStatus(attempts[k])
    ensures forall j :: 0 <= j < k ==> !PassesStatus(attempts[j])
  {
    if PassesStatus(attempts[0]) then 0
    else
      assert EventuallyPasses(attempts[1..]) by {
        var k :| 0 <= k < |attempts| && PassesStatus(attempts[k]);
        assert attempts[1..][k - 1] == attempts[k];
      }
      1 + FirstPass(attempts[1..])
  }

  /** The body that `get_response(url).content` returns. */
  function Body(net: Network, url: string): seq<byte>
    requires EventuallyPasses(net(url))
  {
    net(url)[FirstPass(net(url))].content
  }

  /**
   * `get_response(segment)`: repeats the GET until a response passes
   * `raise_for_status`, and returns that response. `retries` is the number of
   * failed attempts, each followed by the 5-second sleep.
   */
  method GetResponse(segment: string, net: Network) returns (resp: Attempt, retries: nat)
    requires EventuallyPasses(net(segment))
    ensures PassesStatus(resp)
    ensures retries < |net(segment)| && resp == net(segment)[retries]
    ensures forall j :: 0 <= j < retries ==> !PassesStatus(net(segment)[j])
  {
    var attempts := net(segment);
    retries := 0;
    while true
      invariant retries <= FirstPass(attempts)
      invariant forall j :: 0 <= j < retries ==> !PassesStatus(attempts[j])
      decreases FirstPass(attempts) - retries
    {
      var attempt := attempts[retries];
      if PassesStatus(attempt) {
        return attempt, retries;
      }
      retries := retries + 1;
    }
  }

  // ---------------------------------------------------------------------------
  // start_download
  // ---------------------------------------------------------------------------

  /** A completion order of `n` fetch jobs: each job index occurs, and nothing else. */
  predicate IsSchedule(order: seq<nat>, n: nat)
  {
    && |order| == n
    && (forall j :: 0 <= j < |order| ==> order[j] < n)
    && (forall k :: 0 <= k < n ==> k in order)
  }

  /** Every URL of the list eventually gets a passing response. */
  predicate AllEventuallyPass(net: Network, urls: seq<string>)
  {
    forall i :: 0 <= i < |urls| ==> EventuallyPasses(net(urls[i]))
  }

  /** The bodies of the segments, in segment-list order. */
  function Bodies(net: Network, urls: seq<string>): (bodies: seq<seq<byte>>)
    requires AllEventuallyPass(net, urls)
    ensures |bodies| == |urls|
    ensures forall i :: 0 <= i < |urls| ==> bodies[i] == Body(net, urls[i])
  {
    seq(|urls|, i requires 0 <= i < |urls| && AllEventuallyPass(net, urls) => Body(net, urls[i]))
  }

  /**
   * `executor.map(get_response, segments)`: the jobs finish in `order`, each
   * result lands in the slot of its own index, and the results come back
   * indexed by segment position.
   */
  method FetchAll(segments: seq<string>, net: Network, order: seq<nat>) returns (bodies: seq<seq<byte>>)
    requires IsSchedule(order, |segments|)
    requires AllEventuallyPass(net, segments)
    ensures bodies == Bodies(net, segments)
  {
    var results := new seq<byte>[|segments|];
    var j := 0;
    while j < |order|
      invariant 0 <= j <= |order|
      invariant forall k :: k in order[..j] ==> results[k] == Body(net, segments[k])
    {
      var index := order[j];
      var resp, _ := GetResponse(segments[index], net);
      results[index] := resp.content;
      assert order[..j + 1] == order[..j] + [index];
      j := j + 1;
    }
    assert order[..j] == order;
    bodies := results[..];
  }

  /** The `file_name.ts` output file: what was last written to it and whether it still exists. */
  class TsFile {
    var content: seq<byte>
    var present: bool

    constructor ()
      ensures content == [] && !present
    {
      content := [];
      present := false;
    }

    /** `open(file_name + '.ts', 'wb')`: creates or truncates the file. */
    method Open()
      modifies this
      ensures present && content == []
    {
      present := true;
      content := [];
    }

    /** `f.write(chunk)`: appends at the end. */
    method Write(chunk: seq<byte>)
      requires present
      modifies this
      ensures present && content == old(content) + chunk
    {
      content := content + chunk;
    }

    /** `os.remove(file_name + '.ts')`. */
    method Remove()
      modifies this
      ensures !present && content == old(content)
    {
      present := false;
    }
  }

  /** The preconditions of a download whose playlist parses: every job is scheduled once and every segment GET eventually passes. */
  predicate DownloadAssumptions(m3u8Url: string, playlist: Attempt, net: Network, order: seq<nat>)
  {
    PassesStatus(playlist) && !ContainsSub(playlist.text, "HASH") ==>
      && IsSchedule(order, |ParsedSegments(m3u8Url, playlist.text)|)
      && AllEventuallyPass(net, ParsedSegments(m3u8Url, playlist.text))
  }

  /**
   * `start_download(m3u8, file_name)`. `ffmpegFlag` is the value of the
   * `FFMPEG` environment variable; `remuxed` says whether the remuxer ran,
   * `fetched` how many segment fetches were started.
   */
  method StartDownload(m3u8Url: string, playlist: Attempt, net: Network, order: seq<nat>,
                       ffmpegFlag: Option<string>, ts: TsFile)
    returns (r: Result<(), DownloadError>, fetched: nat, remuxed: bool)
    requires DownloadAssumptions(m3u8Url, playlist, net, order)
    modifies ts
    ensures r.Failure? <==> !PassesStatus(playlist) || ContainsSub(playlist.text, "HASH")
    ensures r.Failure? ==> fetched == 0 && !remuxed && unchanged(ts)
    ensures r.Success? ==>
      var segments := ParsedSegments(m3u8Url, playlist.text);
      && fetched == |segments|
      && ts.content == Concat(Bodies(net, segments))
      && remuxed == (ffmpegFlag == Some("1"))
      && ts.present == !remuxed
  {
    var segs := GetSegments(m3u8Url, playlist);
    if segs.Failure? {
      return Failure(segs.error), 0, false;
    }
    var segments := segs.value;
    var bodies := FetchAll(segments, net, order);
    fetched := |segments|;
    ts.Open();
    var i := 0;
    while i < |bodies|
      invariant 0 <= i <= |bodies|
      invariant ts.present && ts.content == Concat(bodies[..i])
    {
      ts.Write(bodies[i]);
      assert bodies[..i + 1][..i] == bodies[..i];
      i := i + 1;
    }
    assert bodies[..i] == bodies;
    remuxed := ffmpegFlag == Some("1");
    if remuxed {
      ts.Remove();
    }
    r := Success(());
  }

  /** A playlist with no comma gives no segment, so the output file is empty. */
  lemma EmptyPlaylist(m3u8Url: string, text: string, net: Network)
    requires ',' !in text
    ensures ParsedSegments(m3u8Url, text) == []
    ensures Concat(Bodies(net, ParsedSegments(m3u8Url, text))) == []
  {
    SegmentCount(text);
    assert multiset(text)[','] == 0;
  }
}

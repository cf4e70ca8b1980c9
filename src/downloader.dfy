/** The decision rules of idlemp/download.py: reading the next URL from the
    queue file, choosing the YouTube or the generic download path, naming the
    downloaded file, finding the track's length, and rewriting the queue once
    a URL has been consumed. Network and file I/O are parameters. */
module Downloader {
  import opened Wrappers
  import opened Json
  import opened Library
  import Seqs
  import opened Paths

  /** The hosts whose URLs take the YouTube path. */
  const YouTubeHosts: seq<string> :=
    ["youtube.com", "www.youtube.com", "m.youtube.com", "gaming.youtube.com", "youtu.be", "www.youtu.be"]

  /** The length given to a track when no strategy finds one: larger than any
      time left under a schedule, so only an always-playing controller picks
      it. */
  const UnknownLength: int := 4294967294

  // ---------------------------------------------------------------------------
  // The queue file

  /** The characters `str.strip()` removes (those for which `str.isspace()`
      holds). */
  predicate IsSpace(c: char) {
    || '\t' <= c <= '\r'             // tab, line feed, vertical tab, form feed, carriage return
    || '\U{1C}' <= c <= ' '           // the four separators, then space
    || c == '\U{85}' || c == '\U{A0}' || c == '\U{1680}'
    || '\U{2000}' <= c <= '\U{200A}'
    || c == '\U{2028}' || c == '\U{2029}' || c == '\U{202F}' || c == '\U{205F}' || c == '\U{3000}'
  }

  /** The index of the first character at or after `from` that is not
      whitespace, or `|s|` when there is none. */
  function SpaceRunEnd(s: string, from: nat): (n: nat)
    requires from <= |s|
    ensures from <= n <= |s|
    ensures forall k :: from <= k < n ==> IsSpace(s[k])
    ensures n < |s| ==> !IsSpace(s[n])
    decreases |s| - from
  {
    if from < |s| && IsSpace(s[from]) then SpaceRunEnd(s, from + 1) else from
  }

  /** The index just after the last character before `to` that is not
      whitespace, or 0 when there is none. */
  function SpaceRunStart(s: string, to: nat): (n: nat)
    requires to <= |s|
    ensures n <= to
    ensures forall k :: n <= k < to ==> IsSpace(s[k])
    ensures n > 0 ==> !IsSpace(s[n - 1])
  {
    if to > 0 && IsSpace(s[to - 1]) then SpaceRunStart(s, to - 1) else to
  }

  /** `s` without its leading whitespace. */
  function TrimStart(s: string): (r: string)
    ensures |r| <= |s| && r == s[|s| - |r|..]
    ensures forall i :: 0 <= i < |s| - |r| ==> IsSpace(s[i])
    ensures r == [] || !IsSpace(r[0])
  {
    s[SpaceRunEnd(s, 0)..]
  }

  /** `s` without its trailing whitespace. */
  function TrimEnd(s: string): (r: string)
    ensures |r| <= |s| && r == s[..|r|]
    ensures forall i :: |r| <= i < |s| ==> IsSpace(s[i])
    ensures r == [] || !IsSpace(r[|r| - 1])
  {
    s[..SpaceRunStart(s, |s|)]
  }

  /** `str.strip()`: the text between the leading and the trailing
      whitespace. */
  function Strip(s: string): (r: string)
    ensures var i := |s| - |TrimStart(s)|;
              && i + |r| <= |s| && r == s[i..i + |r|]
              && (forall k :: 0 <= k < i ==> IsSpace(s[k]))
              && (forall k :: i + |r| <= k < |s| ==> IsSpace(s[k]))
    ensures r == [] || (!IsSpace(r[0]) && !IsSpace(r[|r| - 1]))
  {
    TrimEnd(TrimStart(s))
  }

  /** A line strips to nothing exactly when it is all whitespace. */
  lemma StripBlank(s: string)
    ensures Strip(s) == [] <==> forall k :: 0 <= k < |s| ==> IsSpace(s[k])
  {
    var r := Strip(s);
    var i := |s| - |TrimStart(s)|;
    if r != [] {
      assert s[i] == r[0];
    }
  }

  /** `file.readline()` on the queue file, whose lines (with their line
      terminators) are `queue`: the first line, or "" for an empty file. */
  function FirstLine(queue: seq<string>): (line: string)
    ensures queue != [] ==> line == queue[0]
    ensures queue == [] ==> line == ""
  {
    if queue == [] then "" else queue[0]
  }

  /** The queue after a URL is consumed: every line not equal to the line
      that was read, in order. */
  function Without(lines: seq<string>, url: string): (r: seq<string>)
    ensures forall k :: 0 <= k < |r| ==> r[k] != url && r[k] in lines
  {
    Seqs.Filter(lines, (line: string) => line != url)
  }

  /** The rewrite keeps the order of the remaining lines, drops every copy of
      the consumed line and keeps every copy of any other line (one that
      differs only in whitespace included); it changes nothing when the line
      is absent. */
  lemma WithoutRemovesEveryCopy(lines: seq<string>, url: string, line: string)
    ensures multiset(Without(lines, url))[line] == if line == url then 0 else multiset(lines)[line]
    ensures url !in lines ==> Without(lines, url) == lines
  {
    Seqs.FilterCount(lines, (l: string) => l != url, line);
    if url !in lines {
      Seqs.FilterAll(lines, (l: string) => l != url);
    }
  }

  /** The rewrite of the queue file: writes back, in order, each line that is
      not the consumed one, then truncates. */
  method RewriteQueue(content: seq<string>, url: string) returns (written: seq<string>)
    ensures written == Without(content, url)
  {
    written := [];
    for k := 0 to |content|
      invariant written == Without(content[..k], url)
    {
      Seqs.FilterSnoc(content, k, (line: string) => line != url);
      if content[k] != url {
        written := written + [content[k]];
      }
    }
    assert content[..|content|] == content;
  }

  // ---------------------------------------------------------------------------
  // Choosing the download path

  /** The index of the first character of `s` at or after `from` that is in
      `stops`, or `|s|` when there is none. */
  function IndexOfAny(s: string, from: nat, stops: set<char>): (i: nat)
    requires from <= |s|
    ensures from <= i <= |s|
    ensures forall k :: from <= k < i ==> s[k] !in stops
    ensures i < |s| ==> s[i] in stops
    decreases |s| - from
  {
    if from == |s| || s[from] in stops then from else IndexOfAny(s, from + 1, stops)
  }

  predicate IsSchemeChar(c: char) {
    'a' <= c <= 'z' || 'A' <= c <= 'Z' || '0' <= c <= '9' || c == '+' || c == '-' || c == '.'
  }

  /** The parts of `urllib.parse.urlsplit(url)` the download uses. */
  datatype SplitUrl = SplitUrl(netloc: string, path: string)

  /** Whether the text before the first ':' is taken as a scheme by
      `urlsplit` (Python 3.7): it must be non-empty and made of scheme
      characters, and what follows must not be a non-empty run of digits (a
      port); "http" is taken without these tests. */
  predicate HasScheme(url: string, colon: nat)
    requires colon <= |url|
  {
    && 0 < colon < |url|
    && (|| url[..colon] == "http"
        || (&& (forall k :: 0 <= k < colon ==> IsSchemeChar(url[k]))
            && (colon + 1 == |url| || exists k :: colon + 1 <= k < |url| && !('0' <= url[k] <= '9'))))
  }

  /** `url` with its scheme and the ':' after it removed, when it has one. */
  function AfterScheme(url: string): (rest: string)
    ensures |rest| <= |url|
  {
    var colon := IndexOfAny(url, 0, {':'});
    if HasScheme(url, colon) then url[colon + 1..] else url
  }

  /** `urllib.parse.urlsplit` (Python 3.7): after the scheme, a netloc
      introduced by "//" and running to the first '/', '?' or '#'; then the
      path, up to the first '?' or '#'. */
  function UrlSplit(url: string): (r: SplitUrl)
    ensures forall k :: 0 <= k < |r.netloc| ==> r.netloc[k] !in {'/', '?', '#'}
    ensures forall k :: 0 <= k < |r.path| ==> r.path[k] !in {'?', '#'}
  {
    SplitAfterScheme(AfterScheme(url))
  }

  /** The netloc and path of what follows the scheme. */
  function SplitAfterScheme(rest: string): (r: SplitUrl)
    ensures forall k :: 0 <= k < |r.netloc| ==> r.netloc[k] !in {'/', '?', '#'}
    ensures forall k :: 0 <= k < |r.path| ==> r.path[k] !in {'?', '#'}
  {
    var hasNetloc := |rest| >= 2 && rest[..2] == "//";
    var d := if hasNetloc then IndexOfAny(rest, 2, {'/', '?', '#'}) else 0;
    var tail := rest[d..];
    SplitUrl(if hasNetloc then rest[2..d] else "", tail[..IndexOfAny(tail, 0, {'?', '#'})])
  }

  /** A scheme made of scheme characters is stripped with its ':' when a '/'
      follows. */
  lemma AfterSchemeOf(scheme: string, rest: string)
    requires scheme != [] && forall k :: 0 <= k < |scheme| ==> IsSchemeChar(scheme[k])
    requires rest != [] && rest[0] == '/'
    ensures AfterScheme(scheme + ":" + rest) == rest
  {
    var url := scheme + ":" + rest;
    var colon := IndexOfAny(url, 0, {':'});
    assert url[|scheme|] == ':';
    assert forall k :: 0 <= k < |scheme| ==> url[k] == scheme[k];
    assert colon == |scheme|;
    assert url[..colon] == scheme;
    assert url[colon + 1] == '/';
    assert HasScheme(url, colon);
    assert url[colon + 1..] == rest;
  }

  /** After "//", the netloc runs to the first '/', '?' or '#'. */
  lemma NetlocEnd(host: string, rest: string)
    requires forall k :: 0 <= k < |host| ==> host[k] !in {'/', '?', '#'}
    requires rest == [] || rest[0] in {'/', '?', '#'}
    ensures IndexOfAny("//" + host + rest, 2, {'/', '?', '#'}) == 2 + |host|
    ensures ("//" + host + rest)[2..2 + |host|] == host
  {
    var after := "//" + host + rest;
    var d := IndexOfAny(after, 2, {'/', '?', '#'});
    assert forall k :: 2 <= k < 2 + |host| ==> after[k] == host[k - 2];
    if rest != [] {
      assert after[2 + |host|] == rest[0];
    }
    assert after[2..2 + |host|] == host;
  }

  /** For a URL `scheme://host/...` the netloc is the host, port included. */
  lemma NetlocOfHierarchicalUrl(scheme: string, host: string, rest: string)
    requires scheme != [] && forall k :: 0 <= k < |scheme| ==> IsSchemeChar(scheme[k])
    requires forall k :: 0 <= k < |host| ==> host[k] !in {'/', '?', '#'}
    requires rest == [] || rest[0] in {'/', '?', '#'}
    ensures UrlSplit(scheme + "://" + host + rest).netloc == host
  {
    var url, after := scheme + "://" + host + rest, "//" + host + rest;
    assert url == scheme + ":" + after;
    AfterSchemeOf(scheme, after);
    NetlocEnd(host, rest);
    assert after[..2] == "//";
  }

  /** For a URL `scheme://host/path` the path is everything from the '/' on
      when it holds no query or fragment. */
  lemma PathOfHierarchicalUrl(scheme: string, host: string, path: string)
    requires scheme != [] && forall k :: 0 <= k < |scheme| ==> IsSchemeChar(scheme[k])
    requires forall k :: 0 <= k < |host| ==> host[k] !in {'/', '?', '#'}
    requires path != [] && path[0] == '/' && forall k :: 0 <= k < |path| ==> path[k] !in {'?', '#'}
    ensures UrlSplit(scheme + "://" + host + path).path == path
  {
    var url, after := scheme + "://" + host + path, "//" + host + path;
    assert url == scheme + ":" + after;
    AfterSchemeOf(scheme, after);
    PathAfterNetloc(host, path);
  }

  /** After "//" and the netloc, a path with no query or fragment is kept
      whole. */
  lemma PathAfterNetloc(host: string, path: string)
    requires forall k :: 0 <= k < |host| ==> host[k] !in {'/', '?', '#'}
    requires path != [] && path[0] == '/' && forall k :: 0 <= k < |path| ==> path[k] !in {'?', '#'}
    ensures SplitAfterScheme("//" + host + path).path == path
  {
    var after := "//" + host + path;
    NetlocEnd(host, path);
    assert after[..2] == "//";
    assert after[2 + |host|..] == path;
    assert IndexOfAny(path, 0, {'?', '#'}) == |path|;
  }

  datatype Route = YouTube | Generic

  /** The test `parsedurl.netloc in YOUTUBE`. */
  function RouteOf(url: string): (r: Route)
    ensures r == YouTube <==> UrlSplit(url).netloc in YouTubeHosts
  {
    if UrlSplit(url).netloc in YouTubeHosts then YouTube else Generic
  }

  /** A URL `scheme://host/...` takes the YouTube path exactly when the host is
      one of the six listed; with a port, or in capitals, it does not. */
  lemma RouteByHost(scheme: string, host: string, rest: string)
    requires scheme != [] && forall k :: 0 <= k < |scheme| ==> IsSchemeChar(scheme[k])
    requires forall k :: 0 <= k < |host| ==> host[k] !in {'/', '?', '#'}
    requires rest == [] || rest[0] in {'/', '?', '#'}
    ensures RouteOf(scheme + "://" + host + rest) == YouTube <==> host in YouTubeHosts
    ensures host == "www.youtube.com:443" ==> RouteOf(scheme + "://" + host + rest) == Generic
    ensures host == "WWW.YOUTUBE.COM" ==> RouteOf(scheme + "://" + host + rest) == Generic
  {
    NetlocOfHierarchicalUrl(scheme, host, rest);
  }

  // ---------------------------------------------------------------------------
  // Naming the file and finding the length

  /** The generic path's file name: the Content-Disposition filename when the
      HEAD response names one, else the last component of the URL's path. */
  function FileNameFor(dispositionName: Option<string>, urlPath: string): (name: string)
    ensures dispositionName.Some? ==> name == dispositionName.value
    ensures dispositionName.None? ==> name == PosixName(urlPath)
  {
    match dispositionName
    case Some(n) => n
    case None => PosixName(urlPath)
  }

  /** Without a Content-Disposition filename, `scheme://host/dir/name` is
      saved as `name`. */
  lemma FileNameOfUrl(scheme: string, host: string, dir: string, name: string)
    requires scheme != [] && forall k :: 0 <= k < |scheme| ==> IsSchemeChar(scheme[k])
    requires forall k :: 0 <= k < |host| ==> host[k] !in {'/', '?', '#'}
    requires forall k :: 0 <= k < |dir| ==> dir[k] !in {'?', '#'}
    requires IsPart(name) && forall k :: 0 <= k < |name| ==> name[k] !in {'?', '#'}
    ensures FileNameFor(None, UrlSplit(scheme + "://" + host + "/" + dir + "/" + name).path) == name
  {
    var path := "/" + dir + "/" + name;
    assert forall k :: 0 <= k < |path| ==> path[k] !in {'?', '#'} by {
      forall k | 0 <= k < |path|
        ensures path[k] !in {'?', '#'}
      {
        if k == 0 {
        } else if k < 1 + |dir| {
          assert path[k] == dir[k - 1];
        } else if k == 1 + |dir| {
        } else {
          assert path[k] == name[k - 2 - |dir|];
        }
      }
    }
    assert scheme + "://" + host + "/" + dir + "/" + name == scheme + "://" + host + path;
    PathOfHierarchicalUrl(scheme, host, path);
    PosixNameOfLastComponent("/" + dir, name);
  }

  /** `int(n / d)`: the quotient truncated toward zero. */
  function TruncDiv(n: int, d: int): (q: int)
    requires d > 0
    ensures 0 <= n ==> 0 <= q && q * d <= n < q * d + d
    ensures n < 0 ==> q <= 0 && q * d - d < n <= q * d
  {
    if n >= 0 then n / d else -((-n) / d)
  }

  /** What taglib reports: the first TITLE and LENGTH values, when present. */
  datatype Tags = Tags(title: Option<string>, length: Option<int>)

  /** The title of a generic download: the TITLE tag, else "". */
  function TitleOf(tags: Option<Tags>): (title: string)
    ensures tags.Some? && tags.value.title.Some? ==> title == tags.value.title.value
    ensures !(tags.Some? && tags.value.title.Some?) ==> title == ""
  {
    if tags.Some? && tags.value.title.Some? then tags.value.title.value else ""
  }

  /** The length chain: the LENGTH tag when taglib is present and has one;
      else VLC's duration in milliseconds, truncated to seconds, unless VLC is
      unavailable or reports -1; else `UnknownLength`. */
  predicate LengthFallback(tags: Option<Tags>, vlcDuration: Option<int>, length: int) {
    && (tags.Some? && tags.value.length.Some? ==> length == tags.value.length.value)
    && (!(tags.Some? && tags.value.length.Some?) && vlcDuration.Some? && vlcDuration.value != -1 ==>
          length == TruncDiv(vlcDuration.value, 1000))
    && (!(tags.Some? && tags.value.length.Some?) && (vlcDuration.None? || vlcDuration.value == -1) ==>
          length == UnknownLength)
  }

  /** The length probe of the generic path: `length` starts unknown and each
      strategy sets it only while it is still unknown. */
  method ProbeLength(tags: Option<Tags>, vlcDuration: Option<int>) returns (length: int)
    ensures LengthFallback(tags, vlcDuration, length)
  {
    var found: Option<int> := None;
    if tags.Some? && tags.value.length.Some? {
      found := Some(tags.value.length.value);
    }
    if found.None? && vlcDuration.Some? {
      if vlcDuration.value != -1 {
        found := Some(TruncDiv(vlcDuration.value, 1000));
      }
    }
    if found.None? {
      found := Some(UnknownLength);
    }
    length := found.value;
  }

  // ---------------------------------------------------------------------------
  // One download

  /** What the collaborators of `download` report for one URL. */
  datatype Collaborators = Collaborators(
    youtubeInfo: Option<MusicInfo>,   // youtube.get_stream's track, None where it returns None
    dispositionName: Option<string>,  // the Content-Disposition filename of the HEAD response
    transferOk: bool,                 // the HTTP requests and the file write complete
    tags: Result<Option<Tags>>,       // Ok(None) without taglib; the exception `taglib.File` raises
    vlcDuration: Option<int>)         // milliseconds; None when vlc.Instance() is None

  /** `download` either returns a track or raises; it never returns None. */
  datatype DownloadOutcome = Returned(info: MusicInfo) | Raised(error: Exception)

  /** Whether the collaborators let `download` produce a track for `url`: on
      the YouTube path a stream and a completed transfer; on the generic path a
      completed transfer and a file taglib can open (or no taglib). */
  predicate Obtains(url: string, ext: Collaborators) {
    if RouteOf(url) == YouTube then ext.youtubeInfo.Some? && ext.transferOk
    else ext.transferOk && ext.tags.Ok?
  }

  /** The exception `download` raises when it produces no track: the failed
      unpacking of a None stream, then a failed transfer, then taglib's error. */
  function FailureOf(url: string, ext: Collaborators): Exception
    requires !Obtains(url, ext)
  {
    if RouteOf(url) == YouTube then (if ext.youtubeInfo.None? then TypeError else IOError)
    else if !ext.transferOk then IOError
    else ext.tags.error
  }

  /** `download(session, url, dir)`. On the YouTube path a None from
      `get_stream` fails the tuple unpacking with TypeError. On the generic
      path the track gets the tag title, the probed length, the chosen file
      name and `url`; a file taglib cannot open raises its OSError. */
  method Download(url: string, ext: Collaborators) returns (outcome: DownloadOutcome)
    ensures outcome.Returned? <==> Obtains(url, ext)
    ensures outcome.Raised? ==> outcome.error == FailureOf(url, ext)
    ensures RouteOf(url) == YouTube ==>
              outcome == if ext.youtubeInfo.None? then Raised(TypeError)
                         else if !ext.transferOk then Raised(IOError)
                         else Returned(ext.youtubeInfo.value)
    ensures RouteOf(url) == Generic ==> (outcome.Returned? <==> ext.transferOk && ext.tags.Ok?)
    ensures RouteOf(url) == Generic && outcome.Raised? ==>
              outcome.error == if !ext.transferOk then IOError else ext.tags.error
    ensures RouteOf(url) == Generic && outcome.Returned? ==>
              && outcome.info.title == TitleOf(ext.tags.value)
              && outcome.info.fileName == FileNameFor(ext.dispositionName, UrlSplit(url).path)
              && outcome.info.url == url
              && LengthFallback(ext.tags.value, ext.vlcDuration, outcome.info.length)
  {
    var parsed := UrlSplit(url);
    if parsed.netloc in YouTubeHosts {
      if ext.youtubeInfo.None? {
        return Raised(TypeError);
      }
      if !ext.transferOk {
        return Raised(IOError);
      }
      return Returned(ext.youtubeInfo.value);
    }
    var fileName := FileNameFor(ext.dispositionName, parsed.path);
    if !ext.transferOk {
      return Raised(IOError);
    }
    if ext.tags.Err? {
      return Raised(ext.tags.error);
    }
    var title := TitleOf(ext.tags.value);
    var length := ProbeLength(ext.tags.value, ext.vlcDuration);
    return Returned(MusicInfo(title, length, fileName, url));
  }

  // ---------------------------------------------------------------------------
  // One iteration of the download task

  /** How an iteration of `download_task` ends: waiting on a blank first line,
      a download that raised (caught and logged), or a track added and the
      library snapshot that is written. */
  datatype TaskStep = Waited | Failed(error: Exception) | Added(info: MusicInfo, snapshot: JsonValue)

  /** One iteration of `download_task` on the queue file's lines. A blank
      first line waits. Otherwise the stripped URL is downloaded; an exception
      skips the rest, so the queue and the library stay as they were. A track
      is appended, the library is written, and the queue is rewritten without
      the line that was read. The track is the one `download` produced: the
      YouTube stream's track, or the generic path's title, file name, URL and
      length. */
  method DownloadStep(library: MusicLibrary, queue: seq<string>, ext: Collaborators)
    returns (queue': seq<string>, step: TaskStep)
    modifies library
    ensures Strip(FirstLine(queue)) == [] <==> step == Waited
    ensures !step.Added? ==> queue' == queue && library.musics == old(library.musics)
    ensures step.Added? ==>
              && library.musics == old(library.musics) + [step.info]
              && queue' == Without(queue, FirstLine(queue))
              && DecodeLibrary(step.snapshot) == Ok(library.musics)
    ensures step.Added? <==> Strip(FirstLine(queue)) != [] && Obtains(Strip(FirstLine(queue)), ext)
    ensures step.Failed? ==> step.error == FailureOf(Strip(FirstLine(queue)), ext)
    ensures step.Added? && RouteOf(Strip(FirstLine(queue))) == YouTube ==>
              step.info == ext.youtubeInfo.value
    ensures step.Added? && RouteOf(Strip(FirstLine(queue))) == Generic ==>
              && step.info.url == Strip(FirstLine(queue))
              && step.info.title == TitleOf(ext.tags.value)
              && step.info.fileName == FileNameFor(ext.dispositionName, UrlSplit(Strip(FirstLine(queue))).path)
              && LengthFallback(ext.tags.value, ext.vlcDuration, step.info.length)
  {
    var url := FirstLine(queue);
    if Strip(url) == [] {
      return queue, Waited;
    }
    var outcome := Download(Strip(url), ext);
    if outcome.Raised? {
      return queue, Failed(outcome.error);
    }
    library.Add(outcome.info);
    var snapshot := library.IntoJson();
    queue' := RewriteQueue(queue, url);
    step := Added(outcome.info, snapshot);
  }
}

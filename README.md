# Idle Music Player: a Dafny model of the autoplay core

Idle Music Player plays random tracks from a local music library. A weekly
schedule decides when music may play. A background task downloads new tracks
from a queue file of URLs. This project models the decision logic of that
program and proves what it promises:

- `Controller` (src/controller.dfy) covers idlemp/controller.py.
  - A time-of-day `Interval` contains only the times strictly between its
    ends.
  - An `AutoplayController` either always plays or follows seven weekday
    lists of intervals. `should_play` and `time_left` are loops, proved
    against the functions `Playable` and `TimeLeftAt`.
  - The schedule file is read by `from_json`, with the exceptions Python
    raises for a missing weekday or a bad pair.
- `Time` (src/time.dfy) covers the `datetime` notions the schedule uses.
  - Times of day are microseconds since midnight. Weekdays run 0..6.
    `timedelta.max` is given in microseconds.
  - `time.fromisoformat` and `time.isoformat` are modelled, and reading back
    what `isoformat` writes gives the same time.
- `Library` (src/library.dfy) covers idlemp/library.py.
  - A `MusicLibrary` class holds the ordered tracks. `add` appends in place.
  - Random selection is modelled with and without a length bound. The draw
    of `random.choice` is a parameter.
  - The library file is modelled at record level, and the round trip
    `from_json(into_json(lib))` is proved.
- `Downloader` (src/downloader.dfy) covers the rules of idlemp/download.py.
  - It reads the first queue line and waits when that line is blank.
  - `urlsplit` decides between the YouTube path and the generic path by
    host.
  - It chooses the file name and runs the length fallback chain.
  - A download that raises leaves the queue and the library untouched. A
    download that succeeds appends the track and rewrites the queue without
    the consumed line.
- `Paths` (src/paths.dfy) covers the POSIX `pathlib` operations the program
  uses.
  - A path is parsed into its components: split at '/', with the empty and
    "." segments dropped.
  - `PurePosixPath(p).name` is the last component.
  - `Path(base).joinpath(name)` restarts at an absolute `name` and otherwise
    appends the components of `name`. A doubled '/', a trailing '/' and a "."
    change nothing.
- `App` (src/app.dfy) covers the decisions of idlemp/main.py.
  - It maps the log-level name to a level.
  - A missing library or schedule file falls back to a default.
  - It models one iteration of the main loop and the order of the shutdown
    steps.
- `Json`, `Seqs` and `Wrappers` are shared support.
  - `Json` holds parsed JSON values, whose objects keep their members in
    order so the last duplicate key wins.
  - `Seqs` holds the list comprehensions `[x for x in s if p(x)]` and
    `[f(x) for x in s]`, the latter with `f` able to raise.
  - `Wrappers` holds Option and Result, the latter carrying the Python
    exception raised.

Clocks, randomness, the network and the file system are parameters. Each
call of `datetime.now()` is an `Instant`, and `random.choice`'s draw is a
natural number `pick`. A file is given as its parsed document, or None when
it does not exist. The results of the network and the media probes are
given as a `Collaborators` value.

Where the documented behaviour of the program and its code disagree, the
model follows the code:

- A schedule file missing a weekday key makes `from_json` raise KeyError
  (controller.py:78). The documentation describes an empty list for that
  day.
- `get_random_with_max_len` raises IndexError when no track fits
  (library.py:56). The documentation says it returns no track. See Findings.

## Model

| member | source | states |
|---|---|---|
| Controller.NewInterval | idlemp/controller.py:24-29 | construction succeeds exactly when end is later than start (equal ends rejected), keeping both; otherwise ValueError |
| Controller.EndsExcluded | idlemp/controller.py:31-32 | neither the start nor the end of an interval is contained in it |
| Controller.AutoplayController.Eligible | idlemp/controller.py:58-59 | the eligible list holds exactly today's intervals that contain the time of day |
| Controller.AutoplayController.ShouldPlay | idlemp/controller.py:39-50 | the loop returns true exactly when the controller always plays or some interval of today's list contains the time |
| Controller.AutoplayController.TimeLeft | idlemp/controller.py:52-69 | the loop over the eligible intervals returns `timedelta.max` when always playing, else the latest eligible end minus now, or zero when none is eligible |
| Controller.LatestEnd | idlemp/controller.py:61-64 | the loop's accumulator ends as None exactly when the list is empty |
| Controller.LatestEndIsMaximum | idlemp/controller.py:61-64 | the loop's accumulator is None only for an empty list; otherwise it is the end of one of the intervals and no interval ends later |
| Controller.AlwaysPlayEverywhere | idlemp/controller.py:35-42 | a controller built without intervals plays at every instant with `timedelta.max` left |
| Controller.TimeLeftIsLatestEligibleEnd | idlemp/controller.py:56-69 | in scheduled mode the time left is at least `end - now` for every eligible interval and equal to it for one; with nothing eligible it is zero |
| Controller.ShouldPlayIffTimeLeft | idlemp/controller.py:44-69 | at one instant should_play holds exactly when time_left is positive; under a schedule time_left is below one day |
| Controller.WednesdayMorningExample | idlemp/controller.py:44-69 | with Wednesday 10:00-12:00, 11:00 plays with one hour left; 09:00 and 12:00 do not play |
| Controller.LaterEndWinsExample | idlemp/controller.py:56-69 | of overlapping intervals ending 12:00 and 13:00, at 11:00 the time left runs to 13:00 |
| Controller.DayKey | idlemp/controller.py:78 | the key of weekday d is the one-digit text of d |
| Controller.ParseTime | idlemp/controller.py:75-76 | a pair element becomes a time exactly when it is a string fromisoformat accepts, with that time |
| Controller.ParsePairIff | idlemp/controller.py:75-76 | a pair becomes an interval exactly when it is a list of at least two valid times, the first earlier than the second |
| Controller.ParsePairErrors | idlemp/controller.py:76-77 | each malformed pair raises what Python raises first: IndexError for an empty list, a one-item list or an empty string; ValueError for a non-empty string or times not increasing; KeyError(0) for an object; TypeError for a number, boolean or null; the time's own error for a bad time |
| Controller.ParseDayCases | idlemp/controller.py:76-78 | a weekday's list parses exactly when every pair does, to their intervals in order; an empty string or object gives no intervals; a non-empty string gives ValueError; a non-empty object gives IndexError when its first key is empty and ValueError otherwise; a scalar gives TypeError |
| Controller.DayListCases | idlemp/controller.py:78 | a missing weekday key raises KeyError naming it; a present one is parsed as that day's list |
| Controller.DayListNonEmpty | idlemp/controller.py:76-78 | every interval a weekday's list parses to has its end later than its start |
| Controller.FromJsonIntervalsNonEmpty | idlemp/controller.py:71-79 | a controller loaded from a file holds no empty or reversed interval |
| Controller.ParseDays | idlemp/controller.py:74-77 | the loop over range(0, n) succeeds exactly when each weekday below n does, giving their lists in weekday order |
| Controller.FromJson | idlemp/controller.py:71-79 | the result is a scheduled controller, built exactly when the document is an object whose seven weekday lists all parse, and weekday d holds the list under str(d) |
| Controller.FromJsonRejectsMissingDay | idlemp/controller.py:74-77 | a schedule document without one weekday key is rejected |
| Controller.FromJsonRejectsBadPair | idlemp/controller.py:75-77 | a schedule document with one malformed pair, or one whose end is not later than its start, is rejected |
| Controller.PairRoundTrip | idlemp/controller.py:75-76 | a valid interval written as its two isoformat texts reads back as the same interval |
| Controller.DayRoundTrip | idlemp/controller.py:75-77 | a weekday list of valid intervals written out reads back as the same list, in order |
| Controller.FromJsonRoundTrip | idlemp/controller.py:71-79 | the schedule file written from any week of valid intervals reads back as that week |
| Time.FromIsoFormat | idlemp/controller.py:75-76 | an accepted time text starts with two ASCII digits |
| Time.WithFraction | idlemp/controller.py:76-77 | a fraction is accepted only as 3 or 6 ASCII digits |
| Time.FromIsoFormatFractionForms | idlemp/controller.py:76-77 | the C parser's extra forms load: "10.500", "10:30.500" and "10:30:00:500"; a trailing separator or a fraction of another length is rejected |
| Time.IsoFormat | idlemp/controller.py:76-77 | the text isoformat prints has 8 or 15 characters; fromisoformat reads it back (Time.IsoFormatRoundTrip) |
| Time.PairValuePad | idlemp/controller.py:76-77 | a two-digit field printed zero-padded is a digit pair that reads back as the field |
| Time.DigitsValuePad | idlemp/controller.py:75-76 | a number written zero-padded to a width it fits reads back as that number |
| Time.ClockRoundTrip | idlemp/controller.py:75-76 | fromisoformat reads back the hour, minute, second and microsecond that isoformat printed, with or without the fraction |
| Time.IsoFormatRoundTrip | idlemp/controller.py:75-76 | fromisoformat reads every time of day back from its isoformat text |
| Json.Lookup | idlemp/library.py:73 | looking up a key finds nothing exactly when no member has that key, and otherwise the value of its last binding |
| Seqs.Filter | idlemp/library.py:55 | the comprehension's result holds only elements of the input that satisfy the condition, and every such element |
| Seqs.FilterAppend | idlemp/library.py:55 | the comprehension over a concatenation is the concatenation of the comprehensions |
| Seqs.FilterSnoc | idlemp/download.py:158-160 | one more element extends the comprehension by that element exactly when it passes |
| Seqs.FilterAll | idlemp/download.py:158-160 | a filter every element passes keeps the whole sequence |
| Seqs.MapResult | idlemp/library.py:72-74 | a comprehension over a raising function succeeds exactly when every element maps, giving each element's image in order |
| Seqs.MapResultFirstError | idlemp/controller.py:75-77 | a failing comprehension raises the exception of its first failing element, every earlier element having mapped |
| Seqs.FilterIsSubsequence | idlemp/download.py:158-160 | the kept elements come from strictly increasing positions, so their order is preserved |
| Seqs.FilterCount | idlemp/download.py:158-160 | every copy of a kept value is kept, every copy of a dropped value is dropped |
| Library.Choice | idlemp/library.py:52 | random.choice gives an element of the sequence, and IndexError exactly when it is empty |
| Library.Fitting | idlemp/library.py:55 | the eligible list holds exactly the library's tracks no longer than the bound |
| Library.EncodeRecord | idlemp/library.py:33-36 | the encoder writes an object with the keys title, length, file_name and url, in that order |
| Library.EncodeLibrary | idlemp/library.py:58-62 | the library document is a list with one encoded record per track, in library order |
| Library.DecodeRecord | idlemp/library.py:73 | only an object decodes to a track; Library.DecodedRecordFields and Library.RecordRoundTrip give the rest |
| Library.Field | idlemp/library.py:73 | `o[key]` gives the bound value, or KeyError naming the key when it is absent |
| Library.DecodeLibrary | idlemp/library.py:70-75 | a library document decodes when it is a list of valid records, to those tracks; an empty string or object gives no tracks |
| Library.EncodedRecordFields | idlemp/library.py:33-36 | an encoded record has exactly the keys title, length, file_name and url, in that order, holding the track's fields |
| Library.RecordRoundTrip | idlemp/library.py:33-36 | decoding an encoded record gives the same track |
| Library.LibraryRoundTrip | idlemp/library.py:58-62 | decoding the encoded library gives the same tracks in the same order |
| Library.DecodedRecordFields | idlemp/library.py:72-74 | a record decodes only when it is an object with all four keys, whose values are the track's fields; a missing title raises KeyError('title') |
| Library.DecodeLibraryNeedsAllKeys | idlemp/library.py:72-74 | a library document in which one record lacks one of the four keys is rejected |
| Library.MusicLibrary.constructor | idlemp/library.py:40-41 | a new library holds the given tracks |
| Library.MusicLibrary.Add | idlemp/library.py:43-44 | add puts the track last and leaves the earlier tracks as they were |
| Library.MusicLibrary.GetRandom | idlemp/library.py:51-52 | a random track is one of the library's; an empty library raises IndexError |
| Library.MusicLibrary.GetRandomWithMaxLen | idlemp/library.py:54-56 | a track is returned exactly when some track fits the bound, and it is a library track no longer than the bound; otherwise IndexError, never None |
| Library.MusicLibrary.SelectWithMaxLen | idlemp/library.py:54-56 | the corrected selection gives None exactly when no track fits, else a library track no longer than the bound |
| Library.MusicLibrary.IntoJson | idlemp/library.py:58-62 | the written document reads back as the library's tracks |
| Library.MusicLibrary.FromJson | idlemp/library.py:69-75 | a new library holding the decoded tracks, or the decoder's exception |
| Library.EveryFittingTrackPossible | idlemp/library.py:54-56 | a library track is a possible result of the bounded selection exactly when it fits the bound |
| Library.EveryTrackPossible | idlemp/library.py:51-52 | every track of the library is a possible result of get_random |
| Downloader.TrimStart | idlemp/download.py:134 | the leading whitespace removed is all whitespace, and what remains does not start with whitespace |
| Downloader.TrimEnd | idlemp/download.py:134 | the trailing whitespace removed is all whitespace, and what remains does not end with whitespace |
| Downloader.Strip | idlemp/download.py:134 | the stripped line is a slice of the line with only whitespace around it, neither starting nor ending with whitespace |
| Downloader.StripBlank | idlemp/download.py:134-136 | a line strips to nothing exactly when every character of it is whitespace |
| Downloader.FirstLine | idlemp/download.py:130-131 | readline gives the first line of the queue, or "" for an empty queue |
| Downloader.Without | idlemp/download.py:154-161 | the rewritten queue holds only lines of the old queue, none equal to the consumed line |
| Downloader.WithoutRemovesEveryCopy | idlemp/download.py:154-161 | the rewrite drops every copy of the consumed line and keeps every copy of every other line; without the line, the queue is unchanged |
| Downloader.RewriteQueue | idlemp/download.py:154-161 | the loop writes exactly the lines not equal to the consumed line, in their order |
| Downloader.UrlSplit | idlemp/download.py:61 | the netloc holds no '/', '?' or '#', and the path no '?' or '#' |
| Downloader.AfterSchemeOf | idlemp/download.py:61 | urlsplit strips a scheme of scheme characters and its ':' when a '/' follows |
| Downloader.NetlocEnd | idlemp/download.py:61 | after "//", the netloc ends at the first '/', '?' or '#' |
| Downloader.NetlocOfHierarchicalUrl | idlemp/download.py:61 | the netloc of `scheme://host/...` is the host, port included |
| Downloader.PathAfterNetloc | idlemp/download.py:61 | after "//" and a netloc, a path starting with '/' and holding no '?' or '#' is kept whole |
| Downloader.PathOfHierarchicalUrl | idlemp/download.py:61 | the path of `scheme://host/path` is `/path` when it holds no query or fragment |
| Downloader.RouteOf | idlemp/download.py:62 | a URL takes the YouTube path exactly when its netloc is one of the six listed hosts |
| Downloader.RouteByHost | idlemp/download.py:38-39 | a `scheme://host/...` URL takes the YouTube path exactly when the host is listed; with a port or in capitals it takes the generic path |
| Downloader.FileNameFor | idlemp/download.py:78-84 | the Content-Disposition filename when there is one, else the name of the URL's path |
| Downloader.FileNameOfUrl | idlemp/download.py:83-84 | without a Content-Disposition filename, `scheme://host/dir/name` is saved as `name` |
| Downloader.TruncDiv | idlemp/download.py:110 | the quotient is truncated toward zero, for negative durations too |
| Downloader.TitleOf | idlemp/download.py:92-97 | the TITLE tag when present, else "" |
| Downloader.ProbeLength | idlemp/download.py:93-115 | the LENGTH tag when present; else VLC's duration in seconds unless VLC is unavailable or reports -1; else 4294967294 |
| Downloader.Download | idlemp/download.py:59-120 | on the YouTube path a None from get_stream raises TypeError (never returns None); on the generic path a track is returned exactly when the transfer completes and taglib reads the file, carrying the tag title, the chosen file name, the URL and the fallback length; a failed transfer raises IOError, and a file taglib cannot open raises taglib's error |
| Downloader.DownloadStep | idlemp/download.py:128-161 | a blank first line waits; otherwise a track is added exactly when the download of the stripped URL can produce one, and a failure carries the download's exception and leaves queue and library unchanged; the added track is the YouTube stream's track, or on the generic path the tag title, the chosen file name, the stripped URL and the fallback length; a success appends that track, writes a document that reads back as the library, and rewrites the queue without the consumed line |
| Paths.SplitNoSlash | idlemp/download.py:84 | no segment of a split path holds a '/' |
| Paths.SplitSegment | idlemp/download.py:84 | a text without '/' splits into itself alone |
| Paths.SplitAtSlash | idlemp/download.py:84 | splitting `a/b` gives the segments of `a` followed by those of `b` |
| Paths.SplitOfJoin | idlemp/main.py:139 | components joined with '/' split back into the same components |
| Paths.Parts | idlemp/download.py:84 | every component of a parsed path is non-empty, not "." and holds no '/' |
| Paths.PartsAtSlash | idlemp/download.py:84 | the components of `a/b` are those of `a` followed by those of `b` |
| Paths.PartsOfPart | idlemp/download.py:84 | a single component parses as itself |
| Paths.PartsOfEmpty | idlemp/main.py:139 | the empty path has no components |
| Paths.PartsOfJoin | idlemp/main.py:139 | components joined with '/' parse back as the same components |
| Paths.PosixName | idlemp/download.py:84 | the name of a path holds no '/' and is never "." |
| Paths.NameOfParts | idlemp/download.py:84 | a path whose components end with a given list is named by the last of them |
| Paths.PosixNameOfLastComponent | idlemp/download.py:84 | the name of `dir/name` is `name` for any component `name` |
| Paths.JoinStart | idlemp/main.py:139 | joined components start with the first character of the first component |
| Paths.PartsOfRender | idlemp/main.py:139 | parsing the printed form of a path gives back its components and whether it is absolute |
| Paths.JoinPath | idlemp/main.py:139 | the joined path is absolute when either argument is; its components are those of an absolute `name`, else those of the base followed by those of `name` |
| Paths.JoinPathNamesTrack | idlemp/main.py:139 | the file played is named by the last component of the track's file name, whatever the library path |
| Paths.JoinPathOfSameParts | idlemp/main.py:139 | two names with the same components and the same root join to the same path |
| Paths.PartsDoubleSlash | idlemp/main.py:139 | a doubled '/' adds no component and does not change the root |
| Paths.JoinPathDoubleSlash | idlemp/main.py:139 | joining `a//b` gives the same path as joining `a/b` |
| Paths.PartsTrailingSlash | idlemp/main.py:139 | a trailing '/' adds no component and does not change the root |
| Paths.JoinPathTrailingSlash | idlemp/main.py:139 | joining `x/` gives the same path as joining `x` |
| Paths.JoinPathDot | idlemp/main.py:139 | joining "." gives the base itself, printed without empty or "." components |
| App.LogLevelFor | idlemp/main.py:60-69 | critical, error, warning and debug select their own levels; info, an absent name and any other name select INFO |
| App.LoadLibrary | idlemp/main.py:84-95 | a missing file gives a new empty library; a present one the decoded library, its failure re-raised |
| App.GetAutoplayController | idlemp/main.py:98-110 | always-play exactly when the schedule file is missing; a present file gives the scheduled controller or re-raises its failure |
| App.BudgetSeconds | idlemp/main.py:134-135 | a whole number of seconds fits the bound exactly when it fits the time left in microseconds |
| App.StepAsWritten | idlemp/main.py:133-143 | as written, an iteration sleeps exactly when should_play is false and raises IndexError exactly when it is true and no track fits |
| App.StepAsWrittenCrashesOnEmptyLibrary | idlemp/main.py:133-136 | with no schedule and an empty library the first iteration raises IndexError |
| App.Step | idlemp/main.py:133-143 | never raises; sleeps exactly when should_play is false or no track fits; a played track is a library track no longer than the time left, played from library_path/file_name |
| App.StepCorrectsCrash | idlemp/main.py:134-141 | the corrected iteration agrees with the written one except where the written one raises, and sleeps there |
| App.EveryFittingTrackPlayable | idlemp/main.py:133-139 | when should_play holds, every track no longer than the time left can be the one played |
| App.SentinelNeverPlayedOnSchedule | idlemp/main.py:134-135 | under a schedule a played track is shorter than a day, so never of the unknown-length sentinel |
| App.SentinelPlayableAlways | idlemp/main.py:134-135 | without a schedule a track of the unknown-length sentinel can be played |
| App.MainLoopStep | idlemp/main.py:132-143 | the iteration asks should_play, then time_left, then selects, and does what the corrected step prescribes |
| App.Shutdown | idlemp/main.py:149-152 | the download task, when started, is cancelled before the library is written, and the written document reads back as the library |

## Left out

- I/O is not modelled: files, HTTP (aiohttp), aiofiles, VLC playback and taglib. Their results enter as parameters.
- Asynchronous execution is not modelled: task creation, cancellation, `asyncio.sleep`, and the interleaving of the download task with the main loop. Single iterations are modelled instead.
- `datetime.now()` and `date.today()` are not modelled. Each clock read is an `Instant` parameter, and a change of date between the two reads inside `time_left` is not modelled.
- Floating point is not modelled. `total_seconds()` and `media_length / 1000` are exact integer arithmetic. For whole-second lengths, comparison with the floor of the quotient is exact. Rounding of very large durations is left out.
- The distribution of `random.choice` is not modelled. The draw is a parameter, and only membership and reachability are proved.
- JSON text is not modelled: lexing, escaping, indentation, floats, and the `json` module itself. Documents are parsed values.
- Record field types are not checked by the source. `from_json` stores whatever values the four keys hold. The model's decoder instead rejects a record whose title, file_name or url is not a string, or whose length is not an integer, with TypeError.
- Paths.Parts: a path starting with exactly two '/' keeps that double root in POSIX `pathlib`; the model treats it as a single root. ".." components are kept, as `pathlib` keeps them, and never resolved against the file system.
- The shared mutable default list of `MusicLibrary.__init__` (library.py:40) is not modelled. Each library owns its sequence, so two default-built libraries never alias.
- `MusicLibrary.get` (library.py:46-49) is not modelled. It reads `music.id`, which `MusicInfo` never defines.
- `write_to_file` is modelled only as the document `into_json` produces. The `pretty` flag only changes indentation.
- Time.FromIsoFormat: does not accept UTC offsets or non-ASCII digits. It follows the C parser of Python 3.7-3.10, including its forms beyond the documented grammar (a fraction after any field, a ':' before the fraction); a NUL character right after the last field, which that parser takes for the end of the text, is not modelled. Later Python versions accept more forms.
- Downloader.UrlSplit: follows Python 3.7's `urlsplit`. It leaves out the checks that reject malformed IPv6 brackets and NFKC-unsafe netlocs, and other versions' scheme rules. It covers only the netloc and path parts the download uses.
- Line-terminator translation ('\r\n' to '\n') of text-mode reads is left out. Queue lines are taken as read.
- `int()` parsing of the LENGTH tag text is left out. The tag arrives already as an integer, and a non-numeric tag's ValueError is not modelled.
- idlemp/player.py (VLC polling) is not part of this model.
- idlemp/youtube.py is not part of this model. Its result, a track or None, is a parameter.
- setup.py is not part of this model.
- `parse_arguments` is modelled only for the log level. `argparse` itself is left out, along with the library path default (the current directory) and the URL list option.
- The logging calls are left out.
- The `while True` loops of `main_loop` and `download_task` are modelled one iteration at a time. Termination by cancellation or interrupt is left out.
- Time.FromIsoFormat: its own contract states only the shape of an accepted text. Its meaning is given by Time.IsoFormatRoundTrip.

## Findings

| source | as written | input that shows it | evidently intended | confidence | as-written member | corrected member |
|---|---|---|---|---|---|---|
| idlemp/library.py:54-56 | `get_random_with_max_len` calls `random.choice` on the filtered list, which raises IndexError when no track fits; main.py:136 tests for None, which never arrives, and the exception escapes `main_loop` (main.py:144 catches only cancellation, interrupt and exit), skipping shutdown | no schedule file and an empty library (or every track longer than the time left) | return None when no track fits, so the loop sleeps | high (not executed) | App.StepAsWrittenCrashesOnEmptyLibrary | App.Step |

/** The decisions of `idlemp/main.py`: the log level chosen from the command
    line, the fallbacks when the library or schedule file is missing, one
    iteration of the main loop, and the order of the shutdown steps. The
    files are given as their parsed JSON documents (None when the file does
    not exist), the clock as the instants of its two reads, and
    `random.choice` as a draw. */
module App {
  import opened Wrappers
  import opened Json
  import opened Time
  import opened Library
  import Controller
  import Downloader
  import opened Paths

  // ---------------------------------------------------------------------------
  // Command line

  /** The numeric levels of Python's `logging` module. */
  const Critical: int := 50
  const Error: int := 40
  const Warning: int := 30
  const Info: int := 20
  const Debug: int := 10

  /** The `--loglevel` option: each of "critical", "error", "warning" and
      "debug" selects its level; "info", no option at all, or any other
      name selects INFO. */
  function LogLevelFor(name: Option<string>): (level: int)
    ensures level == Critical <==> name == Some("critical")
    ensures level == Error <==> name == Some("error")
    ensures level == Warning <==> name == Some("warning")
    ensures level == Debug <==> name == Some("debug")
    ensures level == Info <==> name !in {Some("critical"), Some("error"), Some("warning"), Some("debug")}
  {
    if name == Some("critical") then Critical
    else if name == Some("error") then Error
    else if name == Some("warning") then Warning
    else if name == Some("debug") then Debug
    else Info
  }

  // ---------------------------------------------------------------------------
  // Loading

  /** `load_library`: an empty library when the file does not exist;
      otherwise the library `from_json` builds, and its exception re-raised
      rather than replaced by an empty library. */
  method LoadLibrary(file: Option<JsonValue>) returns (r: Result<MusicLibrary>)
    ensures file.None? ==> r.Ok? && fresh(r.value) && r.value.musics == []
    ensures file.Some? ==> (r.Ok? <==> DecodeLibrary(file.value).Ok?)
    ensures file.Some? && r.Ok? ==> fresh(r.value) && r.value.musics == DecodeLibrary(file.value).value
    ensures file.Some? && r.Err? ==> r.error == DecodeLibrary(file.value).error
  {
    if file.None? {
      var empty := new MusicLibrary([]);
      return Ok(empty);
    }
    r := MusicLibrary.FromJson(file.value);
  }

  /** `get_autoplay_controller`: always-play exactly when the schedule file
      does not exist; a present file gives the controller `from_json` builds,
      and a malformed one its exception, never the always-play fallback. */
  function GetAutoplayController(file: Option<JsonValue>): (r: Result<Controller.AutoplayController>)
    ensures r == Ok(Controller.AlwaysPlay) <==> file.None?
    ensures file.Some? ==> (r.Ok? <==> Controller.FromJson(file.value).Ok?)
    ensures file.Some? && r.Ok? ==> r.value.Scheduled? && r.value == Controller.FromJson(file.value).value
    ensures file.Some? && r.Err? ==> r.error == Controller.FromJson(file.value).error
  {
    match file
    case None => Ok(Controller.AlwaysPlay)
    case Some(doc) => Controller.FromJson(doc)
  }

  // ---------------------------------------------------------------------------
  // One iteration of the main loop

  /** `time_left().total_seconds()` as the bound a track length is compared
      with: for a whole number of seconds n, `n <= micros / 10^6` holds over
      the reals exactly when it holds for the floor of the quotient. */
  function BudgetSeconds(micros: int): (seconds: int)
    ensures forall n :: n <= seconds <==> n * MicrosPerSecond <= micros
  {
    var q := micros / MicrosPerSecond;
    assert micros == q * MicrosPerSecond + micros % MicrosPerSecond;
    assert forall n :: n <= q ==> n * MicrosPerSecond <= q * MicrosPerSecond;
    assert forall n :: n > q ==> n * MicrosPerSecond >= q * MicrosPerSecond + MicrosPerSecond;
    q
  }

  /** What an iteration does: play a track (the file given to the player),
      sleep `SLEEP_DELAY` seconds, or raise out of the loop. */
  datatype Action = Play(music: MusicInfo, path: string) | Sleep | Crash(error: Exception)

  /** One iteration as written: when the controller says play, the track
      comes from `get_random_with_max_len`, whose IndexError on an empty
      choice leaves the loop. `should_play` and `time_left` each read the
      clock, at `playNow` and `leftNow`. */
  function StepAsWritten(c: Controller.AutoplayController, library: MusicLibrary, playNow: Instant,
                         leftNow: Instant, pick: nat, libraryPath: string): (a: Action)
    reads library
    ensures a.Crash? <==>
              c.Playable(playNow) && forall m :: m in library.musics ==> m.length > BudgetSeconds(c.TimeLeftAt(leftNow))
    ensures a.Crash? ==> a.error == IndexError
    ensures a.Sleep? <==> !c.Playable(playNow)
  {
    if !c.Playable(playNow) then Sleep
    else
      match library.GetRandomWithMaxLen(BudgetSeconds(c.TimeLeftAt(leftNow)), pick)
      case Ok(m) => Play(m, JoinPath(libraryPath, m.fileName))
      case Err(e) => Crash(e)
  }

  /** With an empty library and no schedule file, the first iteration as
      written raises IndexError out of the main loop. */
  lemma StepAsWrittenCrashesOnEmptyLibrary(library: MusicLibrary, playNow: Instant, leftNow: Instant,
                                           pick: nat, libraryPath: string)
    requires library.musics == []
    ensures StepAsWritten(Controller.AlwaysPlay, library, playNow, leftNow, pick, libraryPath) == Crash(IndexError)
  {
    Controller.AlwaysPlayEverywhere(playNow);
  }

  /** One iteration as the loop's `None` check intends: sleep when the
      controller says not to play or when no track fits the time left. */
  function Step(c: Controller.AutoplayController, library: MusicLibrary, playNow: Instant,
                leftNow: Instant, pick: nat, libraryPath: string): (a: Action)
    reads library
    ensures !a.Crash?
    ensures a.Sleep? <==>
              !c.Playable(playNow) || forall m :: m in library.musics ==> m.length > BudgetSeconds(c.TimeLeftAt(leftNow))
    ensures a.Play? ==>
              && a.music in library.musics
              && a.music.length * MicrosPerSecond <= c.TimeLeftAt(leftNow)
              && a.path == JoinPath(libraryPath, a.music.fileName)
  {
    if !c.Playable(playNow) then Sleep
    else
      match library.SelectWithMaxLen(BudgetSeconds(c.TimeLeftAt(leftNow)), pick)
      case Some(m) => Play(m, JoinPath(libraryPath, m.fileName))
      case None => Sleep
  }

  /** The corrected iteration differs from the written one only where the
      written one raises: there it sleeps. */
  lemma StepCorrectsCrash(c: Controller.AutoplayController, library: MusicLibrary, playNow: Instant,
                          leftNow: Instant, pick: nat, libraryPath: string)
    ensures var written := StepAsWritten(c, library, playNow, leftNow, pick, libraryPath);
            Step(c, library, playNow, leftNow, pick, libraryPath) == if written.Crash? then Sleep else written
  {
  }

  /** Every track that fits the time left can be the one played. */
  lemma EveryFittingTrackPlayable(c: Controller.AutoplayController, library: MusicLibrary, playNow: Instant,
                                  leftNow: Instant, libraryPath: string, m: MusicInfo)
    requires c.Playable(playNow) && m in library.musics
    requires m.length * MicrosPerSecond <= c.TimeLeftAt(leftNow)
    ensures exists pick: nat :: Step(c, library, playNow, leftNow, pick, libraryPath) == Play(m, JoinPath(libraryPath, m.fileName))
  {
    var budget := BudgetSeconds(c.TimeLeftAt(leftNow));
    EveryFittingTrackPossible(library, budget, m);
    var pick: nat :| library.GetRandomWithMaxLen(budget, pick) == Ok(m);
    assert Step(c, library, playNow, leftNow, pick, libraryPath) == Play(m, JoinPath(libraryPath, m.fileName));
  }

  /** Under a schedule a track of the unknown-length sentinel is never
      played: the time left is under a day. */
  lemma SentinelNeverPlayedOnSchedule(c: Controller.AutoplayController, library: MusicLibrary, playNow: Instant,
                                      leftNow: Instant, pick: nat, libraryPath: string)
    requires c.Scheduled?
    ensures var a := Step(c, library, playNow, leftNow, pick, libraryPath);
            a.Play? ==> a.music.length < 86_400 && a.music.length != Downloader.UnknownLength
  {
    Controller.ShouldPlayIffTimeLeft(c, leftNow);
  }

  /** Without a schedule a track of the unknown-length sentinel can be
      played: `timedelta.max` is longer. */
  lemma SentinelPlayableAlways(library: MusicLibrary, playNow: Instant, leftNow: Instant,
                               libraryPath: string, m: MusicInfo)
    requires m in library.musics && m.length == Downloader.UnknownLength
    ensures exists pick: nat ::
              Step(Controller.AlwaysPlay, library, playNow, leftNow, pick, libraryPath) == Play(m, JoinPath(libraryPath, m.fileName))
  {
    Controller.AlwaysPlayEverywhere(playNow);
    Controller.AlwaysPlayEverywhere(leftNow);
    EveryFittingTrackPlayable(Controller.AlwaysPlay, library, playNow, leftNow, libraryPath, m);
  }

  /** The body of `main_loop`'s `while True`, with the corrected selection:
      ask `should_play`, then `time_left`, then select and play or sleep. */
  method MainLoopStep(c: Controller.AutoplayController, library: MusicLibrary, playNow: Instant,
                      leftNow: Instant, pick: nat, libraryPath: string) returns (a: Action)
    ensures a == Step(c, library, playNow, leftNow, pick, libraryPath)
  {
    var play := c.ShouldPlay(playNow);
    if !play {
      return Sleep;
    }
    var left := c.TimeLeft(leftNow);
    var music := library.SelectWithMaxLen(BudgetSeconds(left), pick);
    match music
    case Some(m) =>
      return Play(m, JoinPath(libraryPath, m.fileName));
    case None =>
      return Sleep;
  }

  // ---------------------------------------------------------------------------
  // Shutdown

  /** The steps after the loop: cancel the download task, write the library
      file. */
  datatype Effect = CancelDownload | WriteLibrary(doc: JsonValue)

  /** Shutdown: the download task, when one was started, is cancelled before
      the library is written; the document written reads back as the
      library's tracks. */
  method Shutdown(downloadStarted: bool, library: MusicLibrary) returns (effects: seq<Effect>)
    ensures |effects| == (if downloadStarted then 2 else 1)
    ensures CancelDownload in effects <==> downloadStarted
    ensures forall i, j :: 0 <= i < |effects| && 0 <= j < |effects| && effects[i] == CancelDownload && effects[j].WriteLibrary? ==> i < j
    ensures effects[|effects| - 1].WriteLibrary? && DecodeLibrary(effects[|effects| - 1].doc) == Ok(library.musics)
  {
    effects := [];
    if downloadStarted {
      effects := effects + [CancelDownload];
    }
    var doc := library.IntoJson();
    effects := effects + [WriteLibrary(doc)];
  }
}

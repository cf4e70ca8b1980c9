/** The autoplay schedule of idlemp/controller.py: time-of-day intervals, a
    controller that either always plays or follows a weekly list of intervals,
    and the loading of that list from the schedule file. */
module Controller {
  import opened Wrappers
  import opened Time
  import opened Json
  import Seqs

  /** A window of the day in which music may start. */
  datatype Interval = Interval(start: TimeOfDay, end: TimeOfDay) {

    /** `Interval.contains`: strictly between the ends, both ends excluded. */
    predicate Contains(t: TimeOfDay) {
      start < t < end
    }

    /** What `Interval.__init__` checks: the end is later than the start. */
    predicate NonEmpty() {
      start < end
    }
  }

  /** `Interval(start, end)`: raises ValueError unless `end` is later than
      `start`, so an empty or reversed window is never built. */
  function NewInterval(start: TimeOfDay, end: TimeOfDay): (r: Result<Interval>)
    ensures r.Ok? <==> start < end
    ensures r.Ok? ==> r.value.start == start && r.value.end == end
    ensures r.Err? ==> r.error == ValueError
  {
    if end > start then Ok(Interval(start, end)) else Err(ValueError)
  }

  /** Neither end of an interval is inside it. */
  lemma EndsExcluded(iv: Interval)
    ensures !iv.Contains(iv.start) && !iv.Contains(iv.end)
  {
  }

  /** The `intervals` dict of a scheduled controller: a list for each weekday
      0..6. */
  type Week = w: seq<seq<Interval>> | |w| == 7 witness [[], [], [], [], [], [], []]

  /** `AutoplayController`: built without intervals it always plays; built
      with them it follows the week. The mode never changes. */
  datatype AutoplayController = AlwaysPlay | Scheduled(week: Week) {

    /** `should_play` at `now`: always, or when some interval of today's list
        contains the time of day. */
    predicate Playable(now: Instant) {
      AlwaysPlay? || exists iv :: iv in week[now.weekday] && iv.Contains(now.time)
    }

    /** The comprehension in `time_left`: today's intervals that contain the
        time of day, in list order. */
    function Eligible(now: Instant): (r: seq<Interval>)
      requires Scheduled?
      ensures forall i :: 0 <= i < |r| ==> r[i] in week[now.weekday] && r[i].Contains(now.time)
      ensures forall iv :: iv in week[now.weekday] && iv.Contains(now.time) ==> iv in r
    {
      Seqs.Filter(week[now.weekday], (iv: Interval) => iv.Contains(now.time))
    }

    /** `time_left` at `now`, in microseconds: `timedelta.max` when always
        playing; otherwise the latest eligible end minus the time of day, or
        zero when nothing is eligible. */
    function TimeLeftAt(now: Instant): int {
      match this
      case AlwaysPlay => MaxDuration
      case Scheduled(_) =>
        match LatestEnd(Eligible(now))
        case None => 0
        case Some(end) => end - now.time
    }

    /** `should_play`: scans today's list and returns at the first interval
        that contains the time of day. */
    method ShouldPlay(now: Instant) returns (b: bool)
      ensures b == Playable(now)
    {
      if AlwaysPlay? {
        return true;
      }
      var intervals := week[now.weekday];
      for k := 0 to |intervals|
        invariant forall j :: 0 <= j < k ==> !intervals[j].Contains(now.time)
      {
        if intervals[k].Contains(now.time) {
          return true;
        }
      }
      return false;
    }

    /** `time_left`: keeps the latest end seen among the eligible intervals,
        then subtracts the time of day. */
    method TimeLeft(now: Instant) returns (left: int)
      ensures left == TimeLeftAt(now)
    {
      if AlwaysPlay? {
        return MaxDuration;
      }
      var eligible := Eligible(now);
      var end: Option<TimeOfDay> := None;
      for k := 0 to |eligible|
        invariant end == LatestEnd(eligible[..k])
      {
        assert eligible[..k + 1][..k] == eligible[..k];
        if end.None? || eligible[k].end > end.value {
          end := Some(eligible[k].end);
        }
      }
      assert eligible[..|eligible|] == eligible;
      if end.None? {
        return 0;
      }
      return end.value - now.time;
    }
  }

  /** The accumulator of `time_left`'s loop once it has seen `s`: None for an
      empty list, else the end it kept last. */
  function LatestEnd(s: seq<Interval>): (r: Option<TimeOfDay>)
    ensures r.None? <==> s == []
  {
    if s == [] then None
    else
      var prev, last := LatestEnd(s[..|s| - 1]), s[|s| - 1];
      if prev.None? || last.end > prev.value then Some(last.end) else prev
  }

  /** The accumulator is the maximum of the ends: one of them, and no end is
      later. */
  lemma {:induction false} LatestEndIsMaximum(s: seq<Interval>)
    ensures LatestEnd(s).None? <==> s == []
    ensures LatestEnd(s).Some? ==>
              && (exists i :: 0 <= i < |s| && s[i].end == LatestEnd(s).value)
              && (forall i :: 0 <= i < |s| ==> s[i].end <= LatestEnd(s).value)
  {
    if s != [] {
      var init := s[..|s| - 1];
      LatestEndIsMaximum(init);
      assert forall i :: 0 <= i < |init| ==> s[i] == init[i];
      if LatestEnd(init).Some? {
        var i :| 0 <= i < |init| && init[i].end == LatestEnd(init).value;
        assert s[i].end == LatestEnd(init).value;
      }
    }
  }

  /** A controller built without intervals plays at every instant, with the
      largest duration as the time left. */
  lemma AlwaysPlayEverywhere(now: Instant)
    ensures AlwaysPlay.Playable(now) && AlwaysPlay.TimeLeftAt(now) == MaxDuration
  {
  }

  /** In scheduled mode `time_left` is the latest end among the eligible
      intervals minus now: no eligible interval ends later, and one ends
      exactly then. With nothing eligible it is zero. */
  lemma TimeLeftIsLatestEligibleEnd(c: AutoplayController, now: Instant)
    requires c.Scheduled?
    ensures forall iv :: iv in c.week[now.weekday] && iv.Contains(now.time) ==>
              c.TimeLeftAt(now) >= iv.end - now.time
    ensures c.Playable(now) ==>
              exists iv :: iv in c.week[now.weekday] && iv.Contains(now.time)
                           && c.TimeLeftAt(now) == iv.end - now.time
    ensures !c.Playable(now) ==> c.TimeLeftAt(now) == 0
  {
    var e := c.Eligible(now);
    LatestEndIsMaximum(e);
    forall iv | iv in c.week[now.weekday] && iv.Contains(now.time)
      ensures c.TimeLeftAt(now) >= iv.end - now.time
    {
      var i :| 0 <= i < |e| && e[i] == iv;
    }
    if c.Playable(now) {
      var iv :| iv in c.week[now.weekday] && iv.Contains(now.time);
      assert iv in e;
      var i :| 0 <= i < |e| && e[i].end == LatestEnd(e).value;
      assert e[i] in c.week[now.weekday] && e[i].Contains(now.time);
    }
  }

  /** At one instant `should_play` holds exactly when `time_left` is positive;
      in scheduled mode `time_left` is also less than a day. */
  lemma ShouldPlayIffTimeLeft(c: AutoplayController, now: Instant)
    ensures c.Playable(now) <==> c.TimeLeftAt(now) > 0
    ensures c.Scheduled? ==> 0 <= c.TimeLeftAt(now) < MicrosPerDay
  {
    if c.Scheduled? {
      TimeLeftIsLatestEligibleEnd(c, now);
    }
  }

  /** A schedule playing on Wednesdays from 10:00 to 12:00: at 11:00 it plays
      with an hour left; at 09:00 and at 12:00 itself it does not. */
  lemma WednesdayMorningExample()
    ensures var c := Scheduled([[], [], [Interval(36_000_000_000, 43_200_000_000)], [], [], [], []]);
            && c.Playable(Instant(2, 39_600_000_000)) && c.TimeLeftAt(Instant(2, 39_600_000_000)) == 3_600_000_000
            && !c.Playable(Instant(2, 32_400_000_000)) && !c.Playable(Instant(2, 43_200_000_000))
  {
    var iv := Interval(36_000_000_000, 43_200_000_000);
    var c := Scheduled([[], [], [iv], [], [], [], []]);
    var now := Instant(2, 39_600_000_000);
    assert c.week[2] == [iv];
    assert iv.Contains(now.time);
    TimeLeftIsLatestEligibleEnd(c, now);
    assert !iv.Contains(32_400_000_000) && !iv.Contains(43_200_000_000);
  }

  /** Of two overlapping intervals ending at 12:00 and 13:00, the later end
      decides the time left: two hours at 11:00. */
  lemma LaterEndWinsExample()
    ensures var c := Scheduled([[Interval(36_000_000_000, 43_200_000_000), Interval(32_400_000_000, 46_800_000_000)],
                                [], [], [], [], [], []]);
            c.TimeLeftAt(Instant(0, 39_600_000_000)) == 7_200_000_000
  {
    var a, b := Interval(36_000_000_000, 43_200_000_000), Interval(32_400_000_000, 46_800_000_000);
    var c := Scheduled([[a, b], [], [], [], [], [], []]);
    var now := Instant(0, 39_600_000_000);
    assert b in c.week[0] && b.Contains(now.time);
    TimeLeftIsLatestEligibleEnd(c, now);
  }

  /** `str(day)`: the key of a weekday's list in the schedule file. */
  function DayKey(d: Weekday): (k: string)
    ensures |k| == 1 && k[0] as int == '0' as int + d
  {
    [('0' as int + d) as char]
  }

  /** A JSON value handed to `datetime.time.fromisoformat`. */
  function ParseTime(v: JsonValue): (r: Result<TimeOfDay>)
    ensures r.Ok? <==> v.JString? && FromIsoFormat(v.s).Some?
    ensures r.Ok? ==> r.value == FromIsoFormat(v.s).value
  {
    match v
    case JString(s) =>
      (match FromIsoFormat(s)
       case Some(t) => Ok(t)
       case None => Err(ValueError))
    case _ => Err(TypeError)
  }

  /** One item `i` of a day's list: `Interval(fromisoformat(i[0]),
      fromisoformat(i[1]))`, evaluated left to right; items past the second
      are ignored. */
  function ParsePair(item: JsonValue): Result<Interval>
  {
    match item
    case JArray(p) =>
      if |p| == 0 then Err(IndexError)
      else
        var start :- ParseTime(p[0]);
        if |p| < 2 then Err(IndexError)
        else
          var end :- ParseTime(p[1]);
          NewInterval(start, end)
    // s[0] of a string is one character, too short for fromisoformat
    case JString(s) => if s == "" then Err(IndexError) else Err(ValueError)
    // JSON object keys are strings, so the integer key 0 is never present
    case JObject(_) => Err(IntKeyError(0))
    case _ => Err(TypeError)
  }

  /** A pair parses exactly when it is an array whose first two items are
      times in increasing order, and then it is the interval between them. */
  lemma ParsePairIff(item: JsonValue)
    ensures ParsePair(item).Ok? <==>
              && item.JArray? && |item.items| >= 2
              && ParseTime(item.items[0]).Ok? && ParseTime(item.items[1]).Ok?
              && ParseTime(item.items[0]).value < ParseTime(item.items[1]).value
    ensures ParsePair(item).Ok? ==>
              ParsePair(item).value == Interval(ParseTime(item.items[0]).value, ParseTime(item.items[1]).value)
  {
  }

  /** The exception of each malformed pair, in the order Python evaluates
      `i[0]`, `fromisoformat(i[0])`, `i[1]`, `fromisoformat(i[1])` and the
      interval check. */
  lemma ParsePairErrors(item: JsonValue)
    ensures item.JString? ==> ParsePair(item) == Err(if item.s == "" then IndexError else ValueError)
    ensures item.JObject? ==> ParsePair(item) == Err(IntKeyError(0))
    ensures item.JNull? || item.JBool? || item.JInt? ==> ParsePair(item) == Err(TypeError)
    ensures item.JArray? && item.items == [] ==> ParsePair(item) == Err(IndexError)
    ensures item.JArray? && item.items != [] && ParseTime(item.items[0]).Err? ==>
              ParsePair(item) == Err(ParseTime(item.items[0]).error)
    ensures item.JArray? && |item.items| == 1 && ParseTime(item.items[0]).Ok? ==> ParsePair(item) == Err(IndexError)
    ensures item.JArray? && |item.items| >= 2 && ParseTime(item.items[0]).Ok? && ParseTime(item.items[1]).Err? ==>
              ParsePair(item) == Err(ParseTime(item.items[1]).error)
    ensures item.JArray? && |item.items| >= 2 && ParseTime(item.items[0]).Ok? && ParseTime(item.items[1]).Ok?
            && ParseTime(item.items[0]).value >= ParseTime(item.items[1]).value ==>
              ParsePair(item) == Err(ValueError)
  {
  }

  /** The comprehension over a day's list: every item parsed in order, the
      first failure propagating. */
  function ParsePairs(items: seq<JsonValue>): Result<seq<Interval>> {
    Seqs.MapResult(items, ParsePair)
  }

  /** Iterating the value stored under a weekday key. An array gives its
      items; an empty string or object iterates nothing; a non-empty string
      gives one-character items and a non-empty object its keys, neither of
      which holds a valid pair. */
  function ParseDay(v: JsonValue): Result<seq<Interval>> {
    match v
    case JArray(items) => ParsePairs(items)
    case JString(s) => if s == "" then Ok([]) else Err(ValueError)
    case JObject(ms) =>
      if ms == [] then Ok([])
      else if ms[0].0 == "" then Err(IndexError)
      else Err(ValueError)
    case _ => Err(TypeError)
  }

  /** What iterating each kind of weekday value gives: a list parses when
      every pair does, to the pairs' intervals in order; an empty string or
      object gives no intervals; a non-empty string gives ValueError, as does
      an object whose first key is not empty (IndexError when it is); a
      scalar is not iterable. */
  lemma ParseDayCases(v: JsonValue)
    ensures v.JArray? ==> (ParseDay(v).Ok? <==> forall k :: 0 <= k < |v.items| ==> ParsePair(v.items[k]).Ok?)
    ensures v.JArray? && ParseDay(v).Ok? ==>
              && |ParseDay(v).value| == |v.items|
              && forall k :: 0 <= k < |v.items| ==> ParseDay(v).value[k] == ParsePair(v.items[k]).value
    ensures v.JString? ==> ParseDay(v) == if v.s == "" then Ok([]) else Err(ValueError)
    ensures v.JObject? ==>
              ParseDay(v) == if v.members == [] then Ok([]) else if v.members[0].0 == "" then Err(IndexError) else Err(ValueError)
    ensures v.JNull? || v.JBool? || v.JInt? ==> ParseDay(v) == Err(TypeError)
  {
  }

  /** `data[str(day)]` parsed: KeyError when the weekday is missing. */
  function DayList(members: seq<(string, JsonValue)>, d: Weekday): Result<seq<Interval>> {
    match Lookup(members, DayKey(d))
    case None => Err(KeyError(DayKey(d)))
    case Some(v) => ParseDay(v)
  }

  /** A missing weekday key raises KeyError naming it; a present one is
      parsed as that day's list. */
  lemma DayListCases(members: seq<(string, JsonValue)>, d: Weekday)
    ensures Lookup(members, DayKey(d)).None? ==> DayList(members, d) == Err(KeyError(DayKey(d)))
    ensures Lookup(members, DayKey(d)).Some? ==> DayList(members, d) == ParseDay(Lookup(members, DayKey(d)).value)
  {
  }

  /** The loop over `range(0, n)`: the lists of weekdays 0..n-1, in order. */
  function ParseDays(members: seq<(string, JsonValue)>, n: nat): (r: Result<seq<seq<Interval>>>)
    requires n <= 7
    ensures r.Ok? <==> forall d: Weekday :: d < n ==> DayList(members, d).Ok?
    ensures r.Ok? ==>
              && |r.value| == n
              && forall d: Weekday :: d < n ==> r.value[d] == DayList(members, d).value
  {
    if n == 0 then Ok([])
    else
      var init :- ParseDays(members, n - 1);
      var day :- DayList(members, n - 1);
      var days := init + [day];
      assert forall d: Weekday :: d < n ==> days[d] == DayList(members, d).value by {
        forall d: Weekday | d < n ensures days[d] == DayList(members, d).value {
          if d < n - 1 {
            assert days[d] == init[d];
          } else {
            assert days[d] == day;
          }
        }
      }
      Ok(days)
  }

  /** `AutoplayController.from_json` on the parsed document: a scheduled
      controller whose weekday d holds the pairs stored under `str(d)`, in
      file order; keys other than "0".."6" are ignored. */
  function FromJson(doc: JsonValue): (r: Result<AutoplayController>)
    ensures r.Ok? ==> r.value.Scheduled?
    ensures r.Ok? <==> doc.JObject? && forall d: Weekday :: DayList(doc.members, d).Ok?
    ensures r.Ok? ==> forall d: Weekday :: r.value.week[d] == DayList(doc.members, d).value
  {
    match doc
    case JObject(ms) =>
      var days :- ParseDays(ms, 7);
      Ok(Scheduled(days))
    // indexing a list, a string or a scalar with a string key
    case _ => Err(TypeError)
  }

  /** Every interval a weekday's list parses to passed the constructor's
      check. */
  lemma DayListNonEmpty(members: seq<(string, JsonValue)>, d: Weekday)
    ensures DayList(members, d).Ok? ==>
              forall k :: 0 <= k < |DayList(members, d).value| ==> DayList(members, d).value[k].NonEmpty()
  {
    DayListCases(members, d);
    if DayList(members, d).Ok? {
      var v := Lookup(members, DayKey(d)).value;
      ParseDayCases(v);
      if v.JArray? {
        forall k | 0 <= k < |v.items| ensures ParsePair(v.items[k]).value.NonEmpty() {
          ParsePairIff(v.items[k]);
        }
      }
    }
  }

  /** A controller loaded from a file holds no empty or reversed interval. */
  lemma FromJsonIntervalsNonEmpty(doc: JsonValue)
    ensures FromJson(doc).Ok? ==>
              forall d: Weekday, k :: 0 <= k < |FromJson(doc).value.week[d]| ==> FromJson(doc).value.week[d][k].NonEmpty()
  {
    if FromJson(doc).Ok? {
      forall d: Weekday ensures forall k :: 0 <= k < |FromJson(doc).value.week[d]| ==> FromJson(doc).value.week[d][k].NonEmpty() {
        DayListNonEmpty(doc.members, d);
      }
    }
  }

  /** A weekday missing from the file makes `from_json` fail with KeyError. */
  lemma FromJsonRejectsMissingDay(doc: JsonValue, d: Weekday)
    requires doc.JObject? && Lookup(doc.members, DayKey(d)).None?
    ensures FromJson(doc).Err?
  {
    assert DayList(doc.members, d).Err?;
  }

  /** A pair that is malformed, or whose end is not later than its start,
      makes `from_json` fail. */
  lemma FromJsonRejectsBadPair(doc: JsonValue, d: Weekday, k: nat)
    requires doc.JObject? && Lookup(doc.members, DayKey(d)).Some?
    requires Lookup(doc.members, DayKey(d)).value.JArray?
    requires k < |Lookup(doc.members, DayKey(d)).value.items|
    requires ParsePair(Lookup(doc.members, DayKey(d)).value.items[k]).Err?
    ensures FromJson(doc).Err?
  {
    assert DayList(doc.members, d).Err?;
  }

  /** The schedule file that describes `w`: key `str(d)` holds the pairs of
      weekday d as `[start.isoformat(), end.isoformat()]`. */
  function PairToJson(iv: Interval): JsonValue {
    JArray([JString(IsoFormat(iv.start)), JString(IsoFormat(iv.end))])
  }

  function DayToJson(ivs: seq<Interval>): JsonValue {
    JArray(seq(|ivs|, k requires 0 <= k < |ivs| => PairToJson(ivs[k])))
  }

  function WeekToJson(w: Week): JsonValue {
    JObject(seq(7, d requires 0 <= d < 7 => (DayKey(d), DayToJson(w[d]))))
  }

  /** An interval survives `PairToJson` then `ParsePair`. */
  lemma PairRoundTrip(iv: Interval)
    requires iv.start < iv.end
    ensures ParsePair(PairToJson(iv)) == Ok(iv)
  {
    IsoFormatRoundTrip(iv.start);
    IsoFormatRoundTrip(iv.end);
  }

  /** A day's list of valid intervals survives `DayToJson` then `ParseDay`. */
  lemma DayRoundTrip(ivs: seq<Interval>)
    requires forall iv :: iv in ivs ==> iv.start < iv.end
    ensures ParseDay(DayToJson(ivs)) == Ok(ivs)
  {
    var items := DayToJson(ivs).items;
    forall k | 0 <= k < |items| ensures ParsePair(items[k]) == Ok(ivs[k]) {
      assert ivs[k] in ivs;
      PairRoundTrip(ivs[k]);
    }
    assert ParsePairs(items).value == ivs;
  }

  /** Every valid week read back from its schedule file is the same week:
      seven days, each list in the same order with the same bounds. */
  lemma FromJsonRoundTrip(w: Week)
    requires forall d, iv :: 0 <= d < 7 && iv in w[d] ==> iv.start < iv.end
    ensures FromJson(WeekToJson(w)) == Ok(Scheduled(w))
  {
    var ms := WeekToJson(w).members;
    forall d: Weekday ensures DayList(ms, d) == Ok(w[d]) {
      LookupDistinct(ms, d);
      assert ms[d] == (DayKey(d), DayToJson(w[d]));
      DayRoundTrip(w[d]);
    }
    var r := FromJson(WeekToJson(w));
    assert r.value.week == w;
  }
}

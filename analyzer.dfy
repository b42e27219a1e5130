/**
 * `AccidentAnalyzer`: cumulative counters over the accidents it receives, and a snapshot of them
 * emitted whenever a window has elapsed since the last emission. Counters are never reset.
 */
module Analyzer {
  import opened Wrappers
  import opened AccidentRecord
  import opened Counting
  import opened Ordering

  /** What the analyzer asks of an accident beyond its decoded fields: the hour of day, the day of
    * week and four classifications. The record does not carry them, so they come with it. */
  datatype Derived = Derived(
    hourOfDay: int,
    dayOfWeek: Option<string>,
    nightAccident: bool,
    badWeather: bool,
    urbanArea: bool,
    atIntersection: bool)

  /** The four time-of-day buckets in hour order. */
  const TimeBlocks: seq<string> := ["Night (0-6)", "Morning (6-12)", "Afternoon (12-18)", "Evening (18-24)"]

  /** The time-of-day bucket of an hour; none for a negative hour. Every hour from 18 on, even one
    * past 23, is "Evening (18-24)". */
  function TimeBlock(hour: int): (block: Option<string>)
    ensures block.None? <==> hour < 0
  {
    if hour < 0 then None
    else if hour < 6 then Some("Night (0-6)")
    else if hour < 12 then Some("Morning (6-12)")
    else if hour < 18 then Some("Afternoon (12-18)")
    else Some("Evening (18-24)")
  }

  /** The buckets are six hours wide, in order, the last one open-ended. */
  lemma TimeBlockBySixHours(hour: int)
    requires hour >= 0
    ensures TimeBlock(hour) == Some(TimeBlocks[if hour / 6 < 3 then hour / 6 else 3])
  {
    if hour < 6 {
      assert hour / 6 == 0;
    } else if hour < 12 {
      assert hour / 6 == 1;
    } else if hour < 18 {
      assert hour / 6 == 2;
    } else {
      assert hour / 6 >= 3;
    }
  }

  /** `calculatePercentage`: `part` as a percentage of `total`, and 0 when there is nothing yet. */
  function Percentage(part: int, total: int): (p: real)
    ensures total <= 0 ==> p == 0.0
    ensures total > 0 && 0 <= part <= total ==> 0.0 <= p <= 100.0
    ensures total > 0 && part == total ==> p == 100.0
  {
    if total > 0 then (part as real / total as real) * 100.0 else 0.0
  }

  // -----------------------------------------------------------------------------------------------
  // The counters as values

  /** Everything the analyzer counts. */
  datatype Tally = Tally(
    byState: map<string, nat>,
    byWeatherCondition: map<string, nat>,
    bySeverity: map<int, nat>,
    byTimeOfDay: map<string, nat>,
    byDayOfWeek: map<string, nat>,
    totalAccidents: int,
    nightAccidents: int,
    badWeatherAccidents: int,
    urbanAreaAccidents: int,
    intersectionAccidents: int)

  /** The counters of a fresh analyzer. */
  const NoAccidents: Tally := Tally(map[], map[], map[], map[], map[], 0, 0, 0, 0, 0)

  function Bump(counter: int, flag: bool): int {
    if flag then counter + 1 else counter
  }

  /** `processAccident` on the counters: nothing for `null`; otherwise one more accident, counted by
    * state, weather condition, severity, time-of-day bucket and day of week, and by each
    * classification that holds. */
  function Count(t: Tally, accident: Option<Accident>, derived: Derived): Tally {
    match accident
    case None => t
    case Some(a) =>
      Tally(
        IncrementCount(t.byState, a.state),
        IncrementCount(t.byWeatherCondition, a.weatherCondition),
        IncrementCount(t.bySeverity, Some(a.severity)),
        IncrementCount(t.byTimeOfDay, TimeBlock(derived.hourOfDay)),
        IncrementCount(t.byDayOfWeek, derived.dayOfWeek),
        t.totalAccidents + 1,
        Bump(t.nightAccidents, derived.nightAccident),
        Bump(t.badWeatherAccidents, derived.badWeather),
        Bump(t.urbanAreaAccidents, derived.urbanArea),
        Bump(t.intersectionAccidents, derived.atIntersection))
  }

  /** What the counters always satisfy: severity is a primitive and is always counted, so its
    * counts add up to the total; the other maps skip missing keys and add up to at most the total;
    * each classification counter lies between 0 and the total; only the four buckets appear. */
  ghost predicate Consistent(t: Tally) {
    && MapSum(t.bySeverity) == t.totalAccidents
    && MapSum(t.byState) <= t.totalAccidents
    && MapSum(t.byWeatherCondition) <= t.totalAccidents
    && MapSum(t.byTimeOfDay) <= t.totalAccidents
    && MapSum(t.byDayOfWeek) <= t.totalAccidents
    && 0 <= t.nightAccidents <= t.totalAccidents
    && 0 <= t.badWeatherAccidents <= t.totalAccidents
    && 0 <= t.urbanAreaAccidents <= t.totalAccidents
    && 0 <= t.intersectionAccidents <= t.totalAccidents
    && forall b :: b in t.byTimeOfDay ==> b in TimeBlocks
  }

  lemma NoAccidentsIsConsistent()
    ensures Consistent(NoAccidents)
  {
  }

  /** Counting an accident keeps the counters consistent: severity adds exactly one, every other
    * map at most one. */
  lemma CountKeepsConsistent(t: Tally, accident: Option<Accident>, derived: Derived)
    requires Consistent(t)
    ensures Consistent(Count(t, accident, derived))
  {
    if accident.Some? {
      var a := accident.value;
      MapSumIncrement(t.byState, a.state);
      MapSumIncrement(t.byWeatherCondition, a.weatherCondition);
      MapSumIncrement(t.bySeverity, Some(a.severity));
      MapSumIncrement(t.byTimeOfDay, TimeBlock(derived.hourOfDay));
      MapSumIncrement(t.byDayOfWeek, derived.dayOfWeek);
    }
  }

  /** An accident adds one to the total; an hour of 0 or more adds one to exactly one bucket, a
    * negative hour to none. */
  lemma CountAddsOne(t: Tally, a: Accident, derived: Derived)
    ensures Count(t, Some(a), derived).totalAccidents == t.totalAccidents + 1
    ensures MapSum(Count(t, Some(a), derived).bySeverity) == MapSum(t.bySeverity) + 1
    ensures MapSum(Count(t, Some(a), derived).byTimeOfDay)
         == MapSum(t.byTimeOfDay) + (if derived.hourOfDay >= 0 then 1 else 0)
    ensures derived.hourOfDay < 0 ==> Count(t, Some(a), derived).byTimeOfDay == t.byTimeOfDay
  {
    MapSumIncrement(t.bySeverity, Some(a.severity));
    MapSumIncrement(t.byTimeOfDay, TimeBlock(derived.hourOfDay));
  }

  /** Counts only grow: no key disappears and no count goes down. The total and each
    * classification counter rise by at most one per accident, and a classification counter rises
    * exactly when there is an accident and its classification holds. */
  lemma CountNeverDecreases(t: Tally, accident: Option<Accident>, derived: Derived)
    ensures var u := Count(t, accident, derived);
            && t.totalAccidents <= u.totalAccidents <= t.totalAccidents + 1
            && t.nightAccidents <= u.nightAccidents <= t.nightAccidents + 1
            && t.badWeatherAccidents <= u.badWeatherAccidents <= t.badWeatherAccidents + 1
            && t.urbanAreaAccidents <= u.urbanAreaAccidents <= t.urbanAreaAccidents + 1
            && t.intersectionAccidents <= u.intersectionAccidents <= t.intersectionAccidents + 1
            && (u.nightAccidents == t.nightAccidents + 1 <==> accident.Some? && derived.nightAccident)
            && (u.badWeatherAccidents == t.badWeatherAccidents + 1 <==> accident.Some? && derived.badWeather)
            && (u.urbanAreaAccidents == t.urbanAreaAccidents + 1 <==> accident.Some? && derived.urbanArea)
            && (u.intersectionAccidents == t.intersectionAccidents + 1
                <==> accident.Some? && derived.atIntersection)
            && (forall k :: k in t.byState ==> k in u.byState && u.byState[k] >= t.byState[k])
            && (forall k :: k in t.bySeverity ==> k in u.bySeverity && u.bySeverity[k] >= t.bySeverity[k])
            && (forall k :: k in t.byWeatherCondition ==> k in u.byWeatherCondition && u.byWeatherCondition[k] >= t.byWeatherCondition[k])
            && (forall k :: k in t.byTimeOfDay ==> k in u.byTimeOfDay && u.byTimeOfDay[k] >= t.byTimeOfDay[k])
            && (forall k :: k in t.byDayOfWeek ==> k in u.byDayOfWeek && u.byDayOfWeek[k] >= t.byDayOfWeek[k])
  {
  }

  /** The counters after a stream of accidents. */
  function CountAll(t: Tally, accidents: seq<(Option<Accident>, Derived)>): Tally
    decreases |accidents|
  {
    if accidents == [] then t
    else
      var last := accidents[|accidents| - 1];
      Count(CountAll(t, accidents[..|accidents| - 1]), last.0, last.1)
  }

  /** The number of accidents in a stream that are not `null`. */
  function NonNull(accidents: seq<(Option<Accident>, Derived)>): nat
    decreases |accidents|
  {
    if accidents == [] then 0
    else NonNull(accidents[..|accidents| - 1]) + (if accidents[|accidents| - 1].0.Some? then 1 else 0)
  }

  /** Totals are cumulative: after any stream the total has grown by the number of accidents that
    * were not `null`, and the counters are still consistent. */
  lemma {:induction false} CountAllIsCumulative(t: Tally, accidents: seq<(Option<Accident>, Derived)>)
    requires Consistent(t)
    ensures CountAll(t, accidents).totalAccidents == t.totalAccidents + NonNull(accidents)
    ensures Consistent(CountAll(t, accidents))
    decreases |accidents|
  {
    if accidents != [] {
      var init := accidents[..|accidents| - 1];
      var last := accidents[|accidents| - 1];
      CountAllIsCumulative(t, init);
      CountKeepsConsistent(CountAll(t, init), last.0, last.1);
    }
  }

  // -----------------------------------------------------------------------------------------------
  // The emitted snapshot

  /** The map `emitResults` puts on the output port, by key. The state, weather and severity
    * counts are `TreeMap` copies, given here in their iteration order (ascending keys); the
    * time-of-day and day-of-week counts are the maps as they stand at emission. */
  datatype Snapshot = Snapshot(
    totalAccidents: int,
    accidentsByState: seq<(string, nat)>,
    accidentsByWeatherCondition: seq<(string, nat)>,
    accidentsBySeverity: seq<(int, nat)>,
    accidentsByTimeOfDay: map<string, nat>,
    accidentsByDayOfWeek: map<string, nat>,
    nightAccidentsCount: int,
    nightAccidentsPercentage: real,
    badWeatherAccidentsCount: int,
    badWeatherAccidentsPercentage: real,
    urbanAreaAccidentsCount: int,
    urbanAreaAccidentsPercentage: real,
    intersectionAccidentsCount: int,
    intersectionAccidentsPercentage: real)

  /** `s` is what `emitResults` builds from these counters. */
  predicate IsSnapshotOf(s: Snapshot, t: Tally) {
    && s.totalAccidents == t.totalAccidents
    && IsSortedCopy(s.accidentsByState, t.byState, StrLess)
    && IsSortedCopy(s.accidentsByWeatherCondition, t.byWeatherCondition, StrLess)
    && IsSortedCopy(s.accidentsBySeverity, t.bySeverity, IntLess)
    && s.accidentsByTimeOfDay == t.byTimeOfDay
    && s.accidentsByDayOfWeek == t.byDayOfWeek
    && s.nightAccidentsCount == t.nightAccidents
    && s.nightAccidentsPercentage == Percentage(t.nightAccidents, t.totalAccidents)
    && s.badWeatherAccidentsCount == t.badWeatherAccidents
    && s.badWeatherAccidentsPercentage == Percentage(t.badWeatherAccidents, t.totalAccidents)
    && s.urbanAreaAccidentsCount == t.urbanAreaAccidents
    && s.urbanAreaAccidentsPercentage == Percentage(t.urbanAreaAccidents, t.totalAccidents)
    && s.intersectionAccidentsCount == t.intersectionAccidents
    && s.intersectionAccidentsPercentage == Percentage(t.intersectionAccidents, t.totalAccidents)
  }

  /** Whether a window has elapsed: `currentTime - lastWindowEmitTime >= windowDurationMillis`. */
  predicate WindowElapsed(now: int, lastEmit: int, window: int) {
    now - lastEmit >= window
  }

  class AccidentAnalyzer {
    /** The five count maps and the five counters, held together. */
    var counters: Tally
    var windowDurationMillis: int
    var lastWindowEmitTime: int
    /** Everything emitted on the output port so far, oldest first. */
    var output: seq<Snapshot>

    ghost predicate Valid()
      reads this
    {
      Consistent(counters)
    }

    /** A fresh analyzer: empty maps, zero counters, a one-minute window, last emission at 0. */
    constructor ()
      ensures Valid() && counters == NoAccidents && output == []
      ensures windowDurationMillis == 60000 && lastWindowEmitTime == 0
    {
      counters := NoAccidents;
      windowDurationMillis := 60000;
      lastWindowEmitTime := 0;
      output := [];
      NoAccidentsIsConsistent();
    }

    /** `setup`: the window starts at the given current time. */
    method Setup(now: int)
      modifies this
      ensures lastWindowEmitTime == now
      ensures counters == old(counters) && windowDurationMillis == old(windowDurationMillis) && output == old(output)
    {
      lastWindowEmitTime := now;
    }

    method SetWindowDurationMillis(duration: int)
      modifies this
      ensures windowDurationMillis == duration
      ensures counters == old(counters) && lastWindowEmitTime == old(lastWindowEmitTime) && output == old(output)
    {
      windowDurationMillis := duration;
    }

    /** `processAccident`: the counters become `Count` of the old counters, and stay consistent;
      * nothing is emitted. */
    method ProcessAccident(accident: Option<Accident>, derived: Derived)
      requires Valid()
      modifies this
      ensures Valid()
      ensures counters == Count(old(counters), accident, derived)
      ensures output == old(output)
      ensures windowDurationMillis == old(windowDurationMillis) && lastWindowEmitTime == old(lastWindowEmitTime)
    {
      CountKeepsConsistent(counters, accident, derived);
      counters := Count(counters, accident, derived);
    }

    /** `emitResults`: one more snapshot of the current counters; nothing is reset. */
    method EmitResults()
      requires Valid()
      modifies this
      ensures counters == old(counters)
      ensures |output| == |old(output)| + 1 && output[..|old(output)|] == old(output)
      ensures IsSnapshotOf(output[|output| - 1], counters)
      ensures windowDurationMillis == old(windowDurationMillis) && lastWindowEmitTime == old(lastWindowEmitTime)
    {
      var t := counters;
      StrLessIsStrictTotalOrder();
      IntLessIsStrictTotalOrder();
      var states := SortedCopy(t.byState, StrLess);
      var weather := SortedCopy(t.byWeatherCondition, StrLess);
      var severities := SortedCopy(t.bySeverity, IntLess);
      var results := Snapshot(
        t.totalAccidents, states, weather, severities, t.byTimeOfDay, t.byDayOfWeek,
        t.nightAccidents, Percentage(t.nightAccidents, t.totalAccidents),
        t.badWeatherAccidents, Percentage(t.badWeatherAccidents, t.totalAccidents),
        t.urbanAreaAccidents, Percentage(t.urbanAreaAccidents, t.totalAccidents),
        t.intersectionAccidents, Percentage(t.intersectionAccidents, t.totalAccidents));
      output := output + [results];
    }

    /** `checkWindowEmit` at the given current time: a snapshot is emitted exactly when the window
      * has elapsed, and then the window restarts at `now`. */
    method CheckWindowEmit(now: int)
      requires Valid()
      modifies this
      ensures counters == old(counters)
      ensures windowDurationMillis == old(windowDurationMillis)
      ensures WindowElapsed(now, old(lastWindowEmitTime), windowDurationMillis) ==>
                && lastWindowEmitTime == now
                && |output| == |old(output)| + 1 && output[..|old(output)|] == old(output)
                && IsSnapshotOf(output[|output| - 1], counters)
      ensures !WindowElapsed(now, old(lastWindowEmitTime), windowDurationMillis) ==>
                lastWindowEmitTime == old(lastWindowEmitTime) && output == old(output)
    {
      if now - lastWindowEmitTime >= windowDurationMillis {
        EmitResults();
        lastWindowEmitTime := now;
      }
    }

    /** The input port: count the accident, then check the window at the given time. */
    method OnAccident(accident: Option<Accident>, derived: Derived, now: int)
      requires Valid()
      modifies this
      ensures Valid()
      ensures counters == Count(old(counters), accident, derived)
      ensures windowDurationMillis == old(windowDurationMillis)
      ensures WindowElapsed(now, old(lastWindowEmitTime), windowDurationMillis) ==>
                && lastWindowEmitTime == now
                && |output| == |old(output)| + 1 && output[..|old(output)|] == old(output)
                && IsSnapshotOf(output[|output| - 1], counters)
      ensures !WindowElapsed(now, old(lastWindowEmitTime), windowDurationMillis) ==>
                lastWindowEmitTime == old(lastWindowEmitTime) && output == old(output)
    {
      ProcessAccident(accident, derived);
      CheckWindowEmit(now);
    }
  }
}

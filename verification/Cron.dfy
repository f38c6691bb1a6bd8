/** nextCron: the next instant whose local date and time match a five-field cron expression.

    Instants are milliseconds. The time zone is a function from an instant to its offset in milliseconds. */
module Cron {
  import opened Wrappers
  import opened Calendar

  const MINUTE := 60000
  const HOUR := 3600000
  const DAY := 86400000
  const HORIZON := 366 * 8

  // ---------------------------------------------------------------- field syntax, after splitting

  // The value of Number(...) on a piece of text: an integer, or not a number.
  datatype Number = NotANumber | Num(value: int)

  datatype Base = Star | Range(low: Number, high: Number) | Single(only: Number)

  datatype Part = Part(base: Base, step: Number)

  // The whole field `*`, or its comma-separated parts.
  datatype Field = Every | Parts(parts: seq<Part>)

  predicate PartAllows(p: Part, value: int) {
    p.step.Num? && p.step.value >= 1 &&
    match p.base
    case Star => value % p.step.value == 0
    case Range(a, b) => a.Num? && b.Num? && a.value <= value <= b.value && (value - a.value) % p.step.value == 0
    case Single(v) => v == Num(value)
  }

  predicate FieldAllows(f: Field, min: int, max: int, value: int) {
    f.Every? || ((exists p | p in f.parts :: PartAllows(p, value)) && min <= value <= max)
  }

  datatype CronError = NotFiveFields | NoValidValues | NoOccurrence

  datatype Schedule = Schedule(minutes: seq<int>, hours: seq<int>, days: seq<int>, months: seq<int>, weekdays: seq<int>)

  ghost predicate ValuesOf(f: Field, min: int, max: int, values: seq<int>) {
    forall v :: v in values <==> min <= v <= max && FieldAllows(f, min, max, v)
  }

  method AllowedValues(f: Field, min: int, max: int) returns (values: seq<int>)
    ensures ValuesOf(f, min, max, values)
    ensures forall i, j | 0 <= i < j < |values| :: values[i] < values[j]
  {
    values := [];
    var v := min;
    while v <= max
      invariant min <= v && (v <= max + 1 || v == min)
      invariant forall x :: x in values <==> min <= x < v && x <= max && FieldAllows(f, min, max, x)
      invariant forall i, j | 0 <= i < j < |values| :: values[i] < values[j]
    {
      assert forall i | 0 <= i < |values| :: values[i] in values;
      if FieldAllows(f, min, max, v) { values := values + [v]; }
      v := v + 1;
    }
  }

  // What the five fields say, independently of how the lists are built.
  ghost predicate Reads(fields: seq<Field>, s: Schedule) {
    && |fields| == 5
    && ValuesOf(fields[0], 0, 59, s.minutes) && ValuesOf(fields[1], 0, 23, s.hours)
    && ValuesOf(fields[2], 1, 31, s.days)
    && ValuesOf(fields[3], 1, 12, s.months) && ValuesOf(fields[4], 0, 6, s.weekdays)
  }

  ghost predicate Clock(s: Schedule) {
    (forall h | h in s.hours :: 0 <= h <= 23) && (forall m | m in s.minutes :: 0 <= m <= 59)
  }

  // ---------------------------------------------------------------- local time

  type Zone = int -> int

  // The parts formatToParts yields.
  datatype Local = Local(date: Civil, hour: int, minute: int)

  function Wall(zone: Zone, t: int): int { t + zone(t) }

  function LocalDay(zone: Zone, t: int): int { Wall(zone, t) / DAY }

  function LocalOf(zone: Zone, t: int): Local {
    var w := Wall(zone, t);
    Local(DateOf(w / DAY), w % DAY / HOUR, w % DAY % HOUR / MINUTE)
  }

  // Date.UTC of local parts.
  function Utc(l: Local): int { DayNumber(l.date) * DAY + l.hour * HOUR + l.minute * MINUTE }

  // A count of milliseconds is its days, hours, minutes and the rest of the minute.
  lemma SplitWall(w: int)
    ensures w - w % MINUTE == w / DAY * DAY + w % DAY / HOUR * HOUR + w % DAY % HOUR / MINUTE * MINUTE
    ensures 0 <= w % DAY / HOUR <= 23 && 0 <= w % DAY % HOUR / MINUTE <= 59
  {
    var d, h, m := w / DAY, w % DAY / HOUR, w % DAY % HOUR / MINUTE;
    var rest := w % DAY % HOUR % MINUTE;
    assert w == d * DAY + h * HOUR + m * MINUTE + rest;
    MinuteRest(w, 1440 * d + 60 * h + m, rest);
  }

  lemma MinuteRest(w: int, minutes: int, rest: int)
    requires w == minutes * MINUTE + rest && 0 <= rest < MINUTE
    ensures w % MINUTE == rest
  {
  }

  lemma UtcOfLocal(zone: Zone, t: int)
    ensures Utc(LocalOf(zone, t)) == Wall(zone, t) - Wall(zone, t) % MINUTE
    ensures 0 <= LocalOf(zone, t).hour <= 23 && 0 <= LocalOf(zone, t).minute <= 59
    ensures LocalOf(zone, t).date == DateOf(LocalDay(zone, t))
  {
    hide DayNumber, DateOf;
    DayNumberOfDate(Wall(zone, t) / DAY);
    SplitWall(Wall(zone, t));
  }

  lemma SameDate(a: int, b: int)
    requires DateOf(a) == DateOf(b)
    ensures a == b
  {
    DayNumberOfDate(a);
    DayNumberOfDate(b);
  }

  lemma {:induction false} UniqueClock(d: int, h: int, m: int, e: int, i: int, n: int)
    requires 0 <= h <= 23 && 0 <= m <= 59 && 0 <= i <= 23 && 0 <= n <= 59
    requires d * DAY + h * HOUR + m * MINUTE == e * DAY + i * HOUR + n * MINUTE
    ensures d == e && h == i && m == n
  {
    assert d == e;
    assert h == i;
  }

  lemma LocalDetermines(zone: Zone, t: int, d: int, hour: int, minute: int)
    requires 0 <= hour <= 23 && 0 <= minute <= 59
    ensures LocalOf(zone, t) == Local(DateOf(d), hour, minute)
       <==> Wall(zone, t) - Wall(zone, t) % MINUTE == d * DAY + hour * HOUR + minute * MINUTE
    ensures LocalOf(zone, t) == Local(DateOf(d), hour, minute) ==> LocalDay(zone, t) == d
  {
    hide DayNumber, DateOf;
    UtcOfLocal(zone, t);
    DayNumberOfDate(LocalDay(zone, t));
    DayNumberOfDate(d);
    var l := LocalOf(zone, t);
    if Wall(zone, t) - Wall(zone, t) % MINUTE == d * DAY + hour * HOUR + minute * MINUTE {
      UniqueClock(d, hour, minute, LocalDay(zone, t), l.hour, l.minute);
    }
  }

  predicate DayMatches(s: Schedule, d: int) {
    DateOf(d).day in s.days && DateOf(d).month in s.months && Weekday(d) in s.weekdays
  }

  // A minute on which the schedule fires. Day of month and weekday must both match.
  predicate Fires(s: Schedule, zone: Zone, t: int) {
    var l := LocalOf(zone, t);
    t % MINUTE == 0 && DayMatches(s, LocalDay(zone, t)) && l.hour in s.hours && l.minute in s.minutes
  }

  // Offsets are whole minutes between -12 and +14 hours, and each stays in force for at least twelve hours.
  ghost predicate Regular(zone: Zone) {
    (forall t :: zone(t) % MINUTE == 0 && -12 * HOUR <= zone(t) <= 14 * HOUR) && (forall t :: InForce(zone, t))
  }

  ghost predicate InForce(zone: Zone, t: int) {
    exists a | a <= t < a + 12 * HOUR :: Constant(zone, a, zone(t))
  }

  ghost predicate Constant(zone: Zone, a: int, offset: int) {
    forall u | a <= u < a + 12 * HOUR :: zone(u) == offset
  }

  // The offset that the printed local time shows. The printed time has no seconds.
  function Shown(zone: Zone, t: int): int { Utc(LocalOf(zone, t)) - t }

  // The offset shown at a sample of the day that begins at `stamp` in UTC.
  function SampleAt(zone: Zone, stamp: int, k: int): int { Shown(zone, stamp + k * (12 * HOUR)) }

  // The offset shown at t is also shown at one of the nine samples around its local day.
  ghost predicate Seen(zone: Zone, t: int) {
    exists k | -4 <= k <= 4 :: Shown(zone, t) == SampleAt(zone, LocalDay(zone, t) * DAY, k)
  }

  ghost predicate Visible(zone: Zone) { forall t | t % MINUTE == 0 :: Seen(zone, t) }

  // No minute has an earlier date than an instant before it.
  ghost predicate MinutesAdvance(zone: Zone) {
    forall t, u | t <= u && u % MINUTE == 0 :: LocalDay(zone, t) <= LocalDay(zone, u)
  }

  // ---------------------------------------------------------------- the search

  // In a regular zone, sampling every twelve hours from two days before to two days after finds every offset in
  // force on the day.
  lemma SamplesFindOffset(zone: Zone, u: int) returns (k: int)
    requires Regular(zone) && u % MINUTE == 0
    ensures -4 <= k <= 4 && Shown(zone, u) == zone(u) == SampleAt(zone, LocalDay(zone, u) * DAY, k)
  {
    hide Utc, LocalOf;
    var stamp := LocalDay(zone, u) * DAY;
    assert InForce(zone, u);
    var a :| a <= u < a + 12 * HOUR && Constant(zone, a, zone(u));
    k := -((stamp - a) / (12 * HOUR));
    var sample := stamp + k * (12 * HOUR);
    assert a <= sample < a + 12 * HOUR;
    assert -12 * HOUR <= zone(u) <= 14 * HOUR;
    MinuteRest(sample, 1440 * LocalDay(zone, u) + 720 * k, 0);
    ShownAtMinute(zone, sample);
    ShownAtMinute(zone, u);
  }

  // At whole minutes the difference between the printed local time and the instant is the offset.
  lemma ShownAtMinute(zone: Zone, t: int)
    requires Regular(zone) && t % MINUTE == 0
    ensures Shown(zone, t) == zone(t)
  {
    hide Utc, LocalOf, InForce;
    UtcOfLocal(zone, t);
    WallIsAligned(zone, t);
  }

  lemma WallIsAligned(zone: Zone, t: int)
    requires zone(t) % MINUTE == 0 && t % MINUTE == 0
    ensures Wall(zone, t) % MINUTE == 0
  {
    MinuteRest(t + zone(t), t / MINUTE + zone(t) / MINUTE, 0);
  }

  lemma RegularIsVisible(zone: Zone)
    requires Regular(zone)
    ensures Visible(zone)
  {
    hide Regular, Shown, SampleAt;
    forall t | t % MINUTE == 0 ensures Seen(zone, t) {
      var k := SamplesFindOffset(zone, t);
    }
  }

  ghost predicate Samples(zone: Zone, stamp: int, offsets: seq<int>) {
    forall o :: o in offsets <==> exists k | -4 <= k <= 4 :: o == SampleAt(zone, stamp, k)
  }

  method SampleOffsets(zone: Zone, stamp: int) returns (offsets: seq<int>)
    ensures Samples(zone, stamp, offsets)
  {
    hide Utc, LocalOf;
    offsets := [];
    var hours := -48;
    ghost var k := -4;
    while hours <= 48
      invariant hours == 12 * k && -4 <= k <= 5
      invariant forall o :: o in offsets <==> exists j | -4 <= j < k :: o == SampleAt(zone, stamp, j)
    {
      var sample := stamp + hours * HOUR;
      var offset := Utc(LocalOf(zone, sample)) - sample;
      assert offset == SampleAt(zone, stamp, k);
      assert forall o :: o in offsets + [offset] <==> o in offsets || o == SampleAt(zone, stamp, k);
      if offset !in offsets { offsets := offsets + [offset]; }
      hours, k := hours + 12, k + 1;
    }
  }

  // A firing minute whose offset is sampled.
  ghost predicate Hits(s: Schedule, zone: Zone, t: int) { Fires(s, zone, t) && Seen(zone, t) }

  // t is the first of them after `from` on local day d.
  ghost predicate FirstOn(s: Schedule, zone: Zone, from: int, d: int, t: int) {
    && t > from && Hits(s, zone, t) && LocalDay(zone, t) == d
    && forall u | u > from && Hits(s, zone, u) && LocalDay(zone, u) == d :: t <= u
  }

  ghost predicate NoneOn(s: Schedule, zone: Zone, from: int, d: int) {
    forall u | u > from && Hits(s, zone, u) :: LocalDay(zone, u) != d
  }

  // Candidate instants of the innermost loop.
  predicate Tried(zone: Zone, from: int, d: int, hour: int, minute: int, offset: int, t: int) {
    t == d * DAY + hour * HOUR + minute * MINUTE - offset && t > from
        && LocalOf(zone, t) == Local(DateOf(d), hour, minute)
  }

  method EarliestAt(zone: Zone, from: int, d: int, hour: int, minute: int, offsets: seq<int>, best: Option<int>)
    returns (earliest: Option<int>)
    ensures earliest.Some? ==>
              earliest == best || exists o :: o in offsets && Tried(zone, from, d, hour, minute, o, earliest.value)
    ensures best.Some? ==> earliest.Some? && earliest.value <= best.value
    ensures forall o, t :: o in offsets && Tried(zone, from, d, hour, minute, o, t) ==>
              earliest.Some? && earliest.value <= t
  {
    earliest := best;
    var wall := d * DAY + hour * HOUR + minute * MINUTE;
    for i := 0 to |offsets|
      invariant earliest.Some? ==>
                  earliest == best || exists o :: o in offsets && Tried(zone, from, d, hour, minute, o, earliest.value)
      invariant best.Some? ==> earliest.Some? && earliest.value <= best.value
      invariant forall k, t ::
                  0 <= k < i && Tried(zone, from, d, hour, minute, offsets[k], t) ==>
                      earliest.Some? && earliest.value <= t
    {
      var candidate := wall - offsets[i];
      if candidate <= from || (earliest.Some? && candidate >= earliest.value) {
      } else if LocalOf(zone, candidate) == Local(DateOf(d), hour, minute) {
        assert Tried(zone, from, d, hour, minute, offsets[i], candidate);
        earliest := Some(candidate);
      }
    }
  }

  ghost predicate Found(s: Schedule, zone: Zone, from: int, d: int, offsets: seq<int>, hours: seq<int>,
                        minutes: seq<int>, earliest: Option<int>) {
    && (earliest.Some? ==> exists h, m, o ::
        h in s.hours && m in s.minutes && o in offsets && Tried(zone, from, d, h, m, o, earliest.value))
    && (forall h, m, o, t ::
        h in hours && m in minutes && o in offsets && Tried(zone, from, d, h, m, o, t) ==>
            earliest.Some? && earliest.value <= t)
  }

  method EarliestOn(s: Schedule, zone: Zone, from: int, d: int) returns (earliest: Option<int>)
    requires Clock(s) && DayMatches(s, d)
    ensures earliest.Some? ==> FirstOn(s, zone, from, d, earliest.value)
    ensures earliest.None? ==> NoneOn(s, zone, from, d)
  {
    hide Tried, FirstOn, NoneOn, Samples, Clock, DayMatches;
    var offsets := SampleOffsets(zone, d * DAY);
    earliest := None;
    for i := 0 to |s.hours|
      invariant Found(s, zone, from, d, offsets, s.hours[..i], s.minutes, earliest)
    {
      ghost var before := earliest;
      for j := 0 to |s.minutes|
        invariant Found(s, zone, from, d, offsets, s.hours[..i], s.minutes, earliest)
        invariant Found(s, zone, from, d, offsets, [s.hours[i]], s.minutes[..j], earliest)
      {
        var next := EarliestAt(zone, from, d, s.hours[i], s.minutes[j], offsets, earliest);
        assert s.minutes[..j + 1] == s.minutes[..j] + [s.minutes[j]];
        earliest := next;
      }
      assert s.minutes[..|s.minutes|] == s.minutes;
      assert s.hours[..i + 1] == s.hours[..i] + [s.hours[i]];
    }
    assert s.hours[..|s.hours|] == s.hours;
    SearchIsComplete(s, zone, from, d, offsets, earliest);
  }

  lemma SearchIsComplete(s: Schedule, zone: Zone, from: int, d: int, offsets: seq<int>, earliest: Option<int>)
    requires Clock(s) && DayMatches(s, d) && Samples(zone, d * DAY, offsets)
    requires Found(s, zone, from, d, offsets, s.hours, s.minutes, earliest)
    ensures earliest.Some? ==> FirstOn(s, zone, from, d, earliest.value)
    ensures earliest.None? ==> NoneOn(s, zone, from, d)
  {
    hide Hits;
    forall u | u > from && Hits(s, zone, u) && LocalDay(zone, u) == d
      ensures earliest.Some? && earliest.value <= u
    {
      HitIsTried(s, zone, from, d, offsets, u);
    }
    if earliest.Some? {
      var h, m, o :| h in s.hours && m in s.minutes && o in offsets && Tried(zone, from, d, h, m, o, earliest.value);
      TriedHits(s, zone, from, d, offsets, h, m, o, earliest.value);
    }
  }

  lemma HitIsTried(s: Schedule, zone: Zone, from: int, d: int, offsets: seq<int>, u: int)
    requires Samples(zone, d * DAY, offsets)
    requires u > from && Hits(s, zone, u) && LocalDay(zone, u) == d
    ensures LocalOf(zone, u).hour in s.hours && LocalOf(zone, u).minute in s.minutes
    ensures Shown(zone, u) in offsets
    ensures Tried(zone, from, d, LocalOf(zone, u).hour, LocalOf(zone, u).minute, Shown(zone, u), u)
  {
    hide DayMatches, DateOf, DayNumber, SampleAt;
    UtcOfLocal(zone, u);
    DayNumberOfDate(d);
  }

  lemma TriedHits(s: Schedule, zone: Zone, from: int, d: int, offsets: seq<int>, h: int, m: int, o: int, t: int)
    requires Clock(s) && DayMatches(s, d) && Samples(zone, d * DAY, offsets)
    requires h in s.hours && m in s.minutes && o in offsets && Tried(zone, from, d, h, m, o, t)
    ensures Hits(s, zone, t) && LocalDay(zone, t) == d
  {
    hide DayMatches, DateOf, DayNumber, Wall, SampleAt;
    LocalDetermines(zone, t, d, h, m);
    DayNumberOfDate(d);
    var k :| -4 <= k <= 4 && o == SampleAt(zone, d * DAY, k);
    SampleIsAligned(zone, d, k);
    CandidateIsAligned(d, h, m, o);
  }

  lemma SampleIsAligned(zone: Zone, d: int, k: int)
    ensures SampleAt(zone, d * DAY, k) % MINUTE == 0
  {
    var sample := d * DAY + k * (12 * HOUR);
    var l := LocalOf(zone, sample);
    MinuteRest(Utc(l) - sample, 1440 * (DayNumber(l.date) - d) + 60 * (l.hour - 12 * k) + l.minute, 0);
  }

  lemma CandidateIsAligned(d: int, h: int, m: int, o: int)
    requires o % MINUTE == 0
    ensures (d * DAY + h * HOUR + m * MINUTE - o) % MINUTE == 0
  {
    MinuteRest(d * DAY + h * HOUR + m * MINUTE - o, 1440 * d + 60 * h + m - o / MINUTE, 0);
  }

  // What the day-by-day search delivers in any zone: the first firing minute with a sampled offset, of the first
  // local day from the day of `from` on that has one.
  ghost predicate SearchResult(s: Schedule, zone: Zone, from: int, r: Result<int, CronError>) {
    var first := LocalDay(zone, from);
    match r
    case Ok(t) =>
      && first <= LocalDay(zone, t) < first + HORIZON
      && FirstOn(s, zone, from, LocalDay(zone, t), t)
      && forall d | first <= d < LocalDay(zone, t) :: NoneOn(s, zone, from, d)
    case Err(e) => e == NoOccurrence && forall d | first <= d < first + HORIZON :: NoneOn(s, zone, from, d)
  }

  method Search(s: Schedule, from: int, zone: Zone) returns (r: Result<int, CronError>)
    requires Clock(s)
    ensures SearchResult(s, zone, from, r)
  {
    UtcOfLocal(zone, from);
    DayNumberOfDate(LocalDay(zone, from));
    var current := LocalOf(zone, from).date;
    var first := DayNumber(current);
    for i := 0 to HORIZON
      invariant forall d | first <= d < first + i :: NoneOn(s, zone, from, d)
    {
      var d := first + i;
      if DayMatches(s, d) {
        var earliest := EarliestOn(s, zone, from, d);
        if earliest.Some? { return Ok(earliest.value); }
      } else {
        assert NoneOn(s, zone, from, d);
      }
    }
    r := Err(NoOccurrence);
  }

  ghost predicate AllowsNothing(f: Field, min: int, max: int) {
    forall v | min <= v <= max :: !FieldAllows(f, min, max, v)
  }

  // Some field can never match.
  ghost predicate Unmatchable(fields: seq<Field>)
    requires |fields| == 5
  {
    AllowsNothing(fields[0], 0, 59) || AllowsNothing(fields[1], 0, 23) || AllowsNothing(fields[2], 1, 31)
    || AllowsNothing(fields[3], 1, 12) || AllowsNothing(fields[4], 0, 6)
  }

  lemma EmptyIffNothing(f: Field, min: int, max: int, values: seq<int>)
    requires ValuesOf(f, min, max, values)
    ensures values == [] <==> AllowsNothing(f, min, max)
  {
    if values != [] {
      var v: int := values[0];
      assert v in values;
    }
  }

  method ReadSchedule(fields: seq<Field>) returns (r: Result<Schedule, CronError>)
    ensures r == Err(NotFiveFields) <==> |fields| != 5
    ensures r == Err(NoValidValues) <==> |fields| == 5 && Unmatchable(fields)
    ensures r.Ok? ==> Reads(fields, r.value) && Clock(r.value)
    ensures r.Err? ==> r == Err(NotFiveFields) || r == Err(NoValidValues)
  {
    if |fields| != 5 { return Err(NotFiveFields); }
    var minutes := AllowedValues(fields[0], 0, 59);
    var hours := AllowedValues(fields[1], 0, 23);
    var days := AllowedValues(fields[2], 1, 31);
    var months := AllowedValues(fields[3], 1, 12);
    var weekdays := AllowedValues(fields[4], 0, 6);
    EmptyIffNothing(fields[0], 0, 59, minutes);
    EmptyIffNothing(fields[1], 0, 23, hours);
    EmptyIffNothing(fields[2], 1, 31, days);
    EmptyIffNothing(fields[3], 1, 12, months);
    EmptyIffNothing(fields[4], 0, 6, weekdays);
    if minutes == [] || hours == [] || days == [] || months == [] || weekdays == [] { return Err(NoValidValues); }
    r := Ok(Schedule(minutes, hours, days, months, weekdays));
  }

  method NextCron(fields: seq<Field>, from: int, zone: Zone) returns (r: Result<int, CronError>)
    ensures r == Err(NotFiveFields) <==> |fields| != 5
    ensures r == Err(NoValidValues) <==> |fields| == 5 && Unmatchable(fields)
    ensures r.Ok? || r == Err(NoOccurrence) ==>
              exists s :: Reads(fields, s) && Clock(s) && SearchResult(s, zone, from, r)
  {
    var s := ReadSchedule(fields);
    if s.Err? { return Err(s.error); }
    r := Search(s.value, from, zone);
  }

  // ---------------------------------------------------------------- what the search means

  // t is the next firing minute after `from`.
  ghost predicate IsNext(s: Schedule, zone: Zone, from: int, t: int) {
    t > from && Fires(s, zone, t) && forall u | from < u < t :: !Fires(s, zone, u)
  }

  // The result is the least firing minute after `from`, and a failure means exactly that none falls on one of the
  // 2928 local days from that of `from` on.
  ghost predicate Least(s: Schedule, zone: Zone, from: int, r: Result<int, CronError>) {
    && (r.Ok? ==> IsNext(s, zone, from, r.value))
    && (r.Err? <==> forall u | u > from && Fires(s, zone, u) :: LocalDay(zone, u) >= LocalDay(zone, from) + 366 * 8)
  }

  ghost predicate AlwaysLeast(zone: Zone) {
    forall s, from, r | Clock(s) && SearchResult(s, zone, from, r) :: Least(s, zone, from, r)
  }

  lemma SearchIsLeast(s: Schedule, zone: Zone, from: int, r: Result<int, CronError>)
    requires Visible(zone) && MinutesAdvance(zone) && SearchResult(s, zone, from, r)
    ensures Least(s, zone, from, r)
  {
    hide LocalOf, DayMatches, LocalDay, Seen;
    var first := LocalDay(zone, from);
    assert forall u :: Hits(s, zone, u) <==> Fires(s, zone, u);
    if r.Ok? {
      var t := r.value;
      forall u | from < u < t ensures !Fires(s, zone, u) {
        assert Fires(s, zone, u) ==> LocalDay(zone, from) <= LocalDay(zone, u) <= LocalDay(zone, t);
        assert LocalDay(zone, u) < LocalDay(zone, t) && first <= LocalDay(zone, u) ==>
                 NoneOn(s, zone, from, LocalDay(zone, u));
      }
      assert Fires(s, zone, t) && LocalDay(zone, t) < first + HORIZON;
    } else {
      forall u | u > from && Fires(s, zone, u) ensures LocalDay(zone, u) >= first + HORIZON {
        assert LocalDay(zone, from) <= LocalDay(zone, u);
        assert LocalDay(zone, u) < first + HORIZON ==> NoneOn(s, zone, from, LocalDay(zone, u));
      }
    }
  }

  // ---------------------------------------------------------------- exactly when it is least

  // Offsets of less than a day.
  ghost predicate Bounded(zone: Zone) { forall t :: -DAY < zone(t) < DAY }

  // The schedule `minute hour * * *`.
  function Daily(hour: int, minute: int): Schedule {
    Schedule([minute], [hour], seq(31, i => i + 1), seq(12, i => i + 1), seq(7, i => i))
  }

  lemma EveryDayMatches(hour: int, minute: int, d: int)
    ensures DayMatches(Daily(hour, minute), d)
  {
    var c, s := DateOf(d), Daily(hour, minute);
    assert s.days[c.day - 1] == c.day && s.months[c.month - 1] == c.month && s.weekdays[Weekday(d)] == Weekday(d);
  }

  lemma FiresDaily(zone: Zone, hour: int, minute: int, t: int)
    ensures Fires(Daily(hour, minute), zone, t)
       <==> t % MINUTE == 0 && LocalOf(zone, t).hour == hour && LocalOf(zone, t).minute == minute
  {
    hide DayMatches, LocalOf;
    EveryDayMatches(hour, minute, LocalDay(zone, t));
    assert Daily(hour, minute).hours == [hour] && Daily(hour, minute).minutes == [minute];
  }

  // The daily schedule of the local time at u.
  function DailyAt(zone: Zone, u: int): Schedule { Daily(LocalOf(zone, u).hour, LocalOf(zone, u).minute) }

  lemma DailyAtFires(zone: Zone, u: int)
    requires u % MINUTE == 0
    ensures Fires(DailyAt(zone, u), zone, u) && Clock(DailyAt(zone, u))
  {
    hide LocalOf;
    FiresDaily(zone, LocalOf(zone, u).hour, LocalOf(zone, u).minute, u);
    UtcOfLocal(zone, u);
  }

  // The first hit after `from` on day d up to `end`, if there is one.
  lemma FirstHit(s: Schedule, zone: Zone, from: int, d: int, end: int) returns (t: Option<int>)
    requires from <= end
    ensures t.Some? ==> from < t.value <= end && FirstOn(s, zone, from, d, t.value)
    ensures t.None? ==> forall u | from < u <= end :: !(Hits(s, zone, u) && LocalDay(zone, u) == d)
    decreases end - from
  {
    hide Hits, LocalDay;
    t := None;
    if from < end {
      t := FirstHit(s, zone, from, d, end - 1);
      if t.None? && Hits(s, zone, end) && LocalDay(zone, end) == d { t := Some(end); }
    }
  }

  // Every zone and schedule have a result.
  lemma {:induction false} ResultFrom(s: Schedule, zone: Zone, from: int, i: nat) returns (r: Result<int, CronError>)
    requires i <= HORIZON
    requires forall d | LocalDay(zone, from) <= d < LocalDay(zone, from) + i :: NoneOn(s, zone, from, d)
    ensures SearchResult(s, zone, from, r)
    decreases HORIZON - i
  {
    hide Hits, LocalDay;
    var d := LocalDay(zone, from) + i;
    if i == HORIZON {
      r := Err(NoOccurrence);
    } else if NoneOn(s, zone, from, d) {
      r := ResultFrom(s, zone, from, i + 1);
    } else {
      var u :| u > from && Hits(s, zone, u) && LocalDay(zone, u) == d;
      var t := FirstHit(s, zone, from, d, u);
      r := Ok(t.value);
    }
  }

  // The last instant before u whose date is later than that of u.
  lemma LastLater(zone: Zone, t: int, u: int) returns (from: int)
    requires t <= u && LocalDay(zone, t) > LocalDay(zone, u)
    ensures t <= from < u && LocalDay(zone, from) > LocalDay(zone, u)
    ensures forall v | from < v <= u :: LocalDay(zone, v) <= LocalDay(zone, u)
  {
    hide LocalDay;
    from := u - 1;
    while LocalDay(zone, from) <= LocalDay(zone, u)
      invariant t <= from < u && forall v | from < v <= u :: LocalDay(zone, v) <= LocalDay(zone, u)
      decreases from - t
    {
      from := from - 1;
    }
  }

  // A date that comes back is passed over: asked on the later date, the search does not return to the earlier one.
  lemma LeastNeedsDates(zone: Zone, t: int, u: int)
    requires AlwaysLeast(zone) && t <= u && u % MINUTE == 0
    ensures LocalDay(zone, t) <= LocalDay(zone, u)
  {
    hide LocalDay, Fires, Seen, Daily, LocalOf;
    if LocalDay(zone, t) > LocalDay(zone, u) {
      var from := LastLater(zone, t, u);
      var s := DailyAt(zone, u);
      DailyAtFires(zone, u);
      var r := ResultFrom(s, zone, from, 0);
    }
  }

  // A minute whose offset is not sampled is never found, even when it is next.
  lemma LeastNeedsSamples(zone: Zone, t: int)
    requires Bounded(zone) && AlwaysLeast(zone) && t % MINUTE == 0
    ensures Seen(zone, t)
  {
    hide Fires, Seen, Daily, LocalOf;
    var s := DailyAt(zone, t);
    DailyAtFires(zone, t);
    var r := ResultFrom(s, zone, t - 1, 0);
    assert Least(s, zone, t - 1, r);
    assert LocalDay(zone, t) < LocalDay(zone, t - 1) + HORIZON;
    assert r.Ok? && r.value == t;
  }

  // The search always returns the least firing instant, for every schedule and from every moment, exactly in the
  // zones in which no minute has an earlier date than an instant before it, and in which nine samples see every offset.
  lemma LeastExactlyWhen(zone: Zone)
    requires Bounded(zone)
    ensures AlwaysLeast(zone) <==> MinutesAdvance(zone) && Visible(zone)
  {
    hide LocalDay, Seen, SearchResult, Least, Bounded, Clock;
    if AlwaysLeast(zone) {
      forall t, u | t <= u && u % MINUTE == 0 ensures LocalDay(zone, t) <= LocalDay(zone, u) {
        LeastNeedsDates(zone, t, u);
      }
      forall t | t % MINUTE == 0 ensures Seen(zone, t) {
        LeastNeedsSamples(zone, t);
      }
    }
    if MinutesAdvance(zone) && Visible(zone) {
      forall s, from, r | Clock(s) && SearchResult(s, zone, from, r) ensures Least(s, zone, from, r) {
        SearchIsLeast(s, zone, from, r);
      }
    }
  }

  // In a regular zone the dates alone decide.
  lemma RegularLeastExactlyWhen(zone: Zone)
    requires Regular(zone)
    ensures AlwaysLeast(zone) <==> MinutesAdvance(zone)
  {
    hide Visible, MinutesAdvance, AlwaysLeast;
    RegularIsVisible(zone);
    assert Bounded(zone);
    LeastExactlyWhen(zone);
  }

  // ---------------------------------------------------------------- repeated and skipped local times

  // A local time that occurs twice fires twice: after its first occurrence the second is next, unless another
  // firing minute lies between them.
  lemma RepeatedTimesFireTwice(s: Schedule, zone: Zone, t: int, u: int, r: Result<int, CronError>)
    requires Visible(zone) && MinutesAdvance(zone) && t < u && Fires(s, zone, t)
    requires LocalOf(zone, t) == LocalOf(zone, u) && u % MINUTE == 0
    requires SearchResult(s, zone, t, r)
    ensures Fires(s, zone, u)
    ensures r.Ok? && r.value <= u
  {
    hide DayMatches, DateOf, SearchResult, Seen;
    UtcOfLocal(zone, t);
    UtcOfLocal(zone, u);
    SameDate(LocalDay(zone, t), LocalDay(zone, u));
    SearchIsLeast(s, zone, t, r);
  }

  // No minute of local day d is printed as this time: the clock jumps over it.
  ghost predicate JumpedOver(zone: Zone, d: int, hour: int, minute: int) {
    forall t | t % MINUTE == 0 :: LocalOf(zone, t) != Local(DateOf(d), hour, minute)
  }

  // The search leaves a day that the schedule allows exactly when the clock jumps over all the times of the schedule
  // on it; asked before that day, it then returns an instant of another one.
  lemma SkippedDays(s: Schedule, zone: Zone, from: int, d: int, r: Result<int, CronError>)
    requires Visible(zone) && Clock(s) && DayMatches(s, d) && SearchResult(s, zone, from, r)
    requires forall t | LocalDay(zone, t) == d :: from < t
    ensures NoneOn(s, zone, from, d) <==> forall h, m | h in s.hours && m in s.minutes :: JumpedOver(zone, d, h, m)
    ensures (forall h, m | h in s.hours && m in s.minutes :: JumpedOver(zone, d, h, m)) && r.Ok? ==>
              LocalDay(zone, r.value) != d
  {
    hide DayMatches, DateOf, Seen;
    if NoneOn(s, zone, from, d) {
      forall h, m | h in s.hours && m in s.minutes ensures JumpedOver(zone, d, h, m) {
        forall t | t % MINUTE == 0 ensures LocalOf(zone, t) != Local(DateOf(d), h, m) {
          LocalDetermines(zone, t, d, h, m);
          assert Seen(zone, t);
        }
      }
    }
    if forall h, m | h in s.hours && m in s.minutes :: JumpedOver(zone, d, h, m) {
      forall u | u > from && Hits(s, zone, u) ensures LocalDay(zone, u) != d {
        UtcOfLocal(zone, u);
        assert LocalDay(zone, u) == d ==> !JumpedOver(zone, d, LocalOf(zone, u).hour, LocalOf(zone, u).minute);
      }
    }
  }

  // ---------------------------------------------------------------- why dates must not go back

  // A zone that puts the clock back by one hour when local time reaches half past midnight of day 1.
  function Backwards(t: int): int { if t < DAY + HOUR / 2 then 0 else -HOUR }

  const AT_2345 := Daily(23, 45)

  lemma BackwardsIsRegular()
    ensures Regular(Backwards)
  {
    forall t ensures InForce(Backwards, t) {
      var change := DAY + HOUR / 2;
      var a := if change - 12 * HOUR <= t < change then change - 12 * HOUR else t;
      assert Constant(Backwards, a, Backwards(t));
    }
  }

  lemma FiresAt2345(t: int)
    ensures Hits(AT_2345, Backwards, t) <==>
              t % MINUTE == 0 && DAY - 15 * MINUTE <= Wall(Backwards, t) % DAY < DAY - 14 * MINUTE
    ensures Hits(AT_2345, Backwards, t) <==> Fires(AT_2345, Backwards, t)
  {
    hide LocalOf, Seen, Fires;
    BackwardsIsRegular();
    RegularIsVisible(Backwards);
    FiresDaily(Backwards, 23, 45, t);
    AtQuarterTo(Backwards, t);
  }

  lemma AtQuarterTo(zone: Zone, t: int)
    ensures LocalOf(zone, t).hour == 23 && LocalOf(zone, t).minute == 45
       <==> DAY - 15 * MINUTE <= Wall(zone, t) % DAY < DAY - 14 * MINUTE
  {
    hide DateOf;
  }

  // Asked at ten past midnight of day 1, before the change, the search passes over 23:45 of day 0, which is about
  // to come again, and returns 23:45 of day 1.
  lemma SearchCanMissRepeatedDate()
    ensures var from, soon, late := DAY + 10 * MINUTE, DAY + 45 * MINUTE, 2 * DAY + 45 * MINUTE;
            && Regular(Backwards) && Clock(AT_2345)
            && SearchResult(AT_2345, Backwards, from, Ok(late))
            && from < soon < late && Fires(AT_2345, Backwards, soon)
    ensures !MinutesAdvance(Backwards)
  {
    hide Hits, Fires;
    var from, soon, late := DAY + 10 * MINUTE, DAY + 45 * MINUTE, 2 * DAY + 45 * MINUTE;
    BackwardsIsRegular();
    FiresAt2345(soon);
    FiresAt2345(late);
    assert LocalDay(Backwards, from) == 1 && LocalDay(Backwards, soon) == 0 && LocalDay(Backwards, late) == 1;
    forall u | u > from && Hits(AT_2345, Backwards, u) && LocalDay(Backwards, u) == 1 ensures late <= u {
      FiresAt2345(u);
    }
  }
}

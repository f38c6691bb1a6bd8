/** What a cron expression means: which values each form of a field stands for, and on which local dates and times a
    schedule fires. */
module CronFields {
  import opened Wrappers
  import opened Calendar
  import opened Cron

  // ---------------------------------------------------------------- one field

  // The k-th number from a on, at this distance.
  function Nth(a: int, step: int, k: int): int { a + k * step }

  function One(base: Base, step: Number): Field { Parts([Part(base, step)]) }

  lemma OnlyPart(base: Base, step: Number, min: int, max: int, values: seq<int>)
    requires ValuesOf(One(base, step), min, max, values)
    ensures forall v :: v in values <==> min <= v <= max && PartAllows(Part(base, step), v)
  {
    assert forall p :: p in [Part(base, step)] <==> p == Part(base, step);
  }

  // v is a whole number of steps away from a exactly when it is the k-th number from there.
  lemma StepsAway(a: int, step: int, v: int)
    requires step >= 1
    ensures (v - a) % step == 0 <==> exists k :: v == Nth(a, step, k)
    ensures v >= a ==> ((v - a) % step == 0 <==> exists k :: k >= 0 && v == Nth(a, step, k))
  {
    if (v - a) % step == 0 {
      var k := (v - a) / step;
      assert v == Nth(a, step, k);
      assert v >= a ==> k >= 0;
    }
    if k :| v == Nth(a, step, k) {
      MultipleHasNoRest(k, step);
      assert v - a == k * step;
    }
  }

  lemma MultipleHasNoRest(k: int, step: int)
    requires step >= 1
    ensures k * step % step == 0
  {
    var q, r := k * step / step, k * step % step;
    assert (k - q) * step == r;
    Distance(k - q, step);
  }

  lemma Distance(d: int, step: int)
    requires step >= 1
    ensures d >= 1 ==> d * step >= step
    ensures d <= -1 ==> d * step <= -step
  {
    if d >= 1 {
      assert d * step == (d - 1) * step + step && (d - 1) * step >= 0;
    } else if d <= -1 {
      assert d * step == (d + 1) * step - step && (d + 1) * step <= 0;
    }
  }

  // `*`: the whole range.
  lemma EveryYields(min: int, max: int, values: seq<int>)
    requires ValuesOf(Every, min, max, values)
    ensures forall v :: v in values <==> min <= v <= max
  {
  }

  // `a-b/step`: a and every step-th number behind it, up to b.
  lemma RangeYields(a: int, b: int, step: int, min: int, max: int, values: seq<int>)
    requires step >= 1 && ValuesOf(One(Range(Num(a), Num(b)), Num(step)), min, max, values)
    ensures forall v :: v in values <==>
              min <= v <= max && v <= b && exists k :: k >= 0 && v == Nth(a, step, k)
  {
    OnlyPart(Range(Num(a), Num(b)), Num(step), min, max, values);
    forall v ensures v in values <==> min <= v <= max && v <= b && exists k :: k >= 0 && v == Nth(a, step, k) {
      StepsAway(a, step, v);
      if k :| k >= 0 && v == Nth(a, step, k) { assert k * step >= 0; }
    }
  }

  // `*/step`: the multiples of step.
  lemma StarYields(step: int, min: int, max: int, values: seq<int>)
    requires step >= 1 && ValuesOf(One(Star, Num(step)), min, max, values)
    ensures forall v :: v in values <==> min <= v <= max && exists k :: v == Nth(0, step, k)
  {
    OnlyPart(Star, Num(step), min, max, values);
    forall v ensures v in values <==> min <= v <= max && exists k :: v == Nth(0, step, k) {
      StepsAway(0, step, v);
    }
  }

  // `n`, or `n/step`: n alone.
  lemma SingleYields(n: int, step: int, min: int, max: int, values: seq<int>)
    requires step >= 1 && ValuesOf(One(Single(Num(n)), Num(step)), min, max, values)
    ensures forall v :: v in values <==> min <= v <= max && v == n
  {
    OnlyPart(Single(Num(n)), Num(step), min, max, values);
  }

  // A step below one or that is no number, and a bound or value that is no number, stand for nothing.
  lemma MalformedYieldsNothing(base: Base, step: Number, min: int, max: int, values: seq<int>)
    requires ValuesOf(One(base, step), min, max, values)
    requires
      || step == NotANumber || step.value < 1 || base == Single(NotANumber)
      || (base.Range? && (base.low == NotANumber || base.high == NotANumber))
    ensures values == []
  {
    OnlyPart(base, step, min, max, values);
    forall v: int ensures !PartAllows(Part(base, step), v) {}
    EmptyOrNot(values);
  }

  lemma EmptyOrNot(values: seq<int>)
    ensures values == [] || exists v: int :: v in values
  {
    if values != [] {
      var v: int := values[0];
      assert v in values;
    }
  }

  // A comma: what any of the parts stands for.
  lemma CommaYields(parts: seq<Part>, min: int, max: int, values: seq<int>, each: seq<seq<int>>)
    requires ValuesOf(Parts(parts), min, max, values) && |each| == |parts|
    requires forall i | 0 <= i < |parts| :: ValuesOf(Parts([parts[i]]), min, max, each[i])
    ensures forall v :: v in values <==> exists i :: 0 <= i < |each| && v in each[i]
  {
    forall v ensures v in values <==> exists i :: 0 <= i < |each| && v in each[i] {
      if v in values {
        var p :| p in parts && PartAllows(p, v);
        var i :| 0 <= i < |parts| && parts[i] == p;
        assert p in [parts[i]];
        assert v in each[i];
      }
      if i :| 0 <= i < |each| && v in each[i] {
        assert parts[i] in parts;
        assert PartAllows(parts[i], v);
      }
    }
  }

  // ---------------------------------------------------------------- one instant

  lemma MonthsInOrder(y: int, m: int, n: int)
    requires 1 <= m < n <= 12
    ensures DaysBeforeMonth(y, m) + MonthLength(y, m) <= DaysBeforeMonth(y, n)
  {
    hide Leap;
  }

  lemma DayOfYear(c: Civil)
    requires ValidDate(c)
    ensures 0 <= DaysBeforeMonth(c.year, c.month) + c.day - 1 < if Leap(c.year) then 366 else 365
  {
    hide Leap;
  }

  lemma {:induction false} YearsInOrder(y: int, z: int)
    requires y < z
    ensures DaysBeforeYear(y) + (if Leap(y) then 366 else 365) <= DaysBeforeYear(z)
    decreases z - y
  {
    hide Leap, DaysBeforeYear;
    YearLength(y);
    if y + 1 < z { YearsInOrder(y + 1, z); }
  }

  lemma EarlierDate(b: Civil, c: Civil)
    requires ValidDate(b) && ValidDate(c)
    requires b.year < c.year || (b.year == c.year && (b.month < c.month || (b.month == c.month && b.day < c.day)))
    ensures DayNumber(b) < DayNumber(c)
  {
    hide Leap, DaysBeforeYear, DaysBeforeMonth, MonthLength;
    DayOfYear(b);
    DayOfYear(c);
    if b.year < c.year {
      YearsInOrder(b.year, c.year);
    } else if b.month < c.month {
      MonthsInOrder(b.year, b.month, c.month);
    }
  }

  // Every date of the calendar is the date of its day.
  lemma DateOfDayNumber(c: Civil)
    requires ValidDate(c)
    ensures DateOf(DayNumber(c)) == c
  {
    hide DayNumber, ValidDate;
    var b := DateOf(DayNumber(c));
    DayNumberOfDate(DayNumber(c));
    if b != c {
      if b.year < c.year || (b.year == c.year && (b.month < c.month || (b.month == c.month && b.day < c.day))) {
        EarlierDate(b, c);
      } else {
        EarlierDate(c, b);
      }
    }
  }

  // 1 January 1970 was a Thursday, and the weekdays from Sunday, 0, to Saturday, 6, follow each other.
  lemma WeekdaysFollow(n: int)
    ensures Weekday(0) == 4 && 0 <= Weekday(n) <= 6
    ensures Weekday(n + 1) == if Weekday(n) == 6 then 0 else Weekday(n) + 1
    ensures Weekday(DayNumber(Civil(2000, 1, 1))) == 6
  {
    assert DayNumber(Civil(2000, 1, 1)) == 10957;
  }

  // The clock on the wall shows this date and time at t.
  predicate Shows(zone: Zone, t: int, c: Civil, hour: int, minute: int) {
    var w := DayNumber(c) * 86400000 + hour * 3600000 + minute * 60000;
    ValidDate(c) && 0 <= hour <= 23 && 0 <= minute <= 59 && w <= t + zone(t) < w + 60000
  }

  // A schedule fires at the whole minutes at which the clock shows a date whose day, month and weekday it lists, and
  // an hour and a minute that it lists.
  lemma FiresWhen(s: Schedule, zone: Zone, t: int)
    ensures Fires(s, zone, t) <==>
              && t % 60000 == 0
              && exists c, hour, minute ::
                   && Shows(zone, t, c, hour, minute)
                   && c.day in s.days && c.month in s.months && Weekday(DayNumber(c)) in s.weekdays
                   && hour in s.hours && minute in s.minutes
  {
    hide DayNumber, DateOf, ValidDate, Weekday;
    var l := LocalOf(zone, t);
    UtcOfLocal(zone, t);
    DayNumberOfDate(LocalDay(zone, t));
    assert Shows(zone, t, l.date, l.hour, l.minute);
    forall c, hour, minute | Shows(zone, t, c, hour, minute)
      ensures c == l.date && hour == l.hour && minute == l.minute
    {
      DateOfDayNumber(c);
      SameMinute(zone, t, c, hour, minute);
    }
  }

  lemma SameMinute(zone: Zone, t: int, c: Civil, hour: int, minute: int)
    requires Shows(zone, t, c, hour, minute)
    ensures LocalDay(zone, t) == DayNumber(c) && LocalOf(zone, t).hour == hour && LocalOf(zone, t).minute == minute
  {
    hide DayNumber, DateOf, ValidDate;
    var w := Wall(zone, t);
    var m := DayNumber(c) * DAY + hour * HOUR + minute * MINUTE;
    MinuteRest(w, 1440 * DayNumber(c) + 60 * hour + minute, w - m);
    UtcOfLocal(zone, t);
    DayNumberOfDate(LocalDay(zone, t));
    UniqueClock(DayNumber(c), hour, minute, LocalDay(zone, t), LocalOf(zone, t).hour, LocalOf(zone, t).minute);
  }
}

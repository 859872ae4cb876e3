/** The breakdown of a duration into counts of years, months, weeks, days, hours,
    minutes, seconds and milliseconds under the fixed conventions 1 year = 365 days,
    1 month = 30 days, 1 week = 7 days; shared by timecalc.py and durations.py. */
module Breakdown {
  import opened Civil

  datatype Unit = Years | Months | Weeks | Days | Hours | Minutes | Seconds | Milliseconds

  /** The units in the order the breakdown lists them, largest first. */
  const Units: seq<Unit> := [Years, Months, Weeks, Days, Hours, Minutes, Seconds, Milliseconds]

  /** The key `delta2parts` gives a unit. */
  function UnitName(u: Unit): (name: string)
    ensures |name| >= 2
  {
    match u
    case Years => "years"
    case Months => "months"
    case Weeks => "weeks"
    case Days => "days"
    case Hours => "hours"
    case Minutes => "minutes"
    case Seconds => "seconds"
    case Milliseconds => "milliseconds"
  }

  /** Microseconds in one of each unit. */
  function UnitMicros(u: Unit): nat {
    match u
    case Years => 365 * DayMicros
    case Months => 30 * DayMicros
    case Weeks => 7 * DayMicros
    case Days => DayMicros
    case Hours => 3600 * 1000000
    case Minutes => 60 * 1000000
    case Seconds => 1000000
    case Milliseconds => 1000
  }

  datatype Parts = Parts(years: int, months: int, weeks: int, days: int,
                         hours: int, minutes: int, seconds: int, millis: int)
  {
    function Get(u: Unit): int {
      match u
      case Years => years
      case Months => months
      case Weeks => weeks
      case Days => days
      case Hours => hours
      case Minutes => minutes
      case Seconds => seconds
      case Milliseconds => millis
    }
  }

  /** The microseconds the counts add up to (`parts2delta` with whole counts,
      `Duration.timedelta` of durations.py). */
  function Total(p: Parts): int {
    (365 * p.years + 30 * p.months + 7 * p.weeks + p.days) * DayMicros
    + (3600 * p.hours + 60 * p.minutes + p.seconds) * 1000000
    + p.millis * 1000
  }

  /** The magnitude bounds the breakdown of a non-negative duration keeps. */
  predicate Normal(p: Parts) {
    && 0 <= p.years && 0 <= p.months < 13 && 0 <= p.weeks < 5 && 0 <= p.days < 7
    && 0 <= p.hours < 24 && 0 <= p.minutes < 60 && 0 <= p.seconds < 60 && 0 <= p.millis < 1000
  }

  /** The breakdown of a non-negative duration exactly: Normal, and no run of
      smaller units makes up a larger one. */
  predicate Canonical(p: Parts) {
    Normal(p) && 30 * p.months + 7 * p.weeks + p.days < 365 && 7 * p.weeks + p.days < 30
  }

  function Negate(p: Parts): Parts {
    Parts(-p.years, -p.months, -p.weeks, -p.days, -p.hours, -p.minutes, -p.seconds, -p.millis)
  }

  /** The breakdown of a non-negative count of microseconds by successive divmod. */
  function SplitMagnitude(a: nat): (p: Parts)
    ensures Canonical(p)
    ensures 0 <= a - Total(p) < 1000
  {
    var days := a / DayMicros;
    var secs := a % DayMicros / 1000000;
    var micros := a % 1000000;
    var d1 := days % 365;
    var d2 := d1 % 30;
    var s1 := secs % 3600;
    var p := Parts(days / 365, d1 / 30, d2 / 7, d2 % 7, secs / 3600, s1 / 60, s1 % 60, micros / 1000);
    assert days == 365 * p.years + 30 * p.months + 7 * p.weeks + p.days;
    assert secs == 3600 * p.hours + 60 * p.minutes + p.seconds;
    assert a == days * DayMicros + secs * 1000000 + micros;
    p
  }

  lemma SmallMagnitude(a: nat)
    requires a < 1000
    ensures SplitMagnitude(a) == Parts(0, 0, 0, 0, 0, 0, 0, 0)
  {
    DivModUnique(a, DayMicros, 0, a);
    DivModUnique(a, 1000000, 0, a);
    DivModUnique(a, 1000, 0, a);
  }

  /** `delta2parts` (timecalc.py) and `set_timedelta` (durations.py): the
      breakdown of |delta| with the sign of delta given to every count. */
  function Split(delta: int): (p: Parts)
    ensures delta >= 0 ==> Canonical(p)
    ensures delta < 0 ==> Canonical(Negate(p))
    ensures delta >= 0 ==> 0 <= delta - Total(p) < 1000
    ensures delta < 0 ==> 0 <= Total(p) - delta < 1000
  {
    if delta < 0 then Negate(SplitMagnitude(-delta)) else SplitMagnitude(delta)
  }

  /** The breakdown gives back the duration whenever it is a whole number of
      milliseconds; otherwise the microseconds below a millisecond are dropped. */
  lemma SplitRoundTrip(delta: int)
    requires delta % 1000 == 0
    ensures Total(Split(delta)) == delta
  {
    var p := Split(delta);
    var days := 365 * p.years + 30 * p.months + 7 * p.weeks + p.days;
    var secs := 3600 * p.hours + 60 * p.minutes + p.seconds;
    ThousandFold(days, secs);
    var k := days * 86400000 + secs * 1000 + p.millis;
    assert Total(p) == 1000 * k;
    CloseMultiples(delta, Total(p), delta / 1000, k);
  }

  /** Whole days and seconds are whole milliseconds. */
  lemma ThousandFold(days: int, secs: int)
    ensures days * DayMicros + secs * 1000000 == (days * 86400000 + secs * 1000) * 1000
  {
  }

  /** Two multiples of 1000 less than 1000 apart are equal. */
  lemma CloseMultiples(x: int, y: int, q: int, k: int)
    requires x == 1000 * q && y == 1000 * k && -1000 < x - y < 1000
    ensures x == y
  {
  }

  /** The breakdown is the only canonical one: splitting what canonical counts add
      up to gives those counts back. */
  lemma SplitOfCanonical(p: Parts)
    requires Canonical(p)
    ensures Split(Total(p)) == p
  {
    var a := Total(p);
    var days := 365 * p.years + 30 * p.months + 7 * p.weeks + p.days;
    var secs := 3600 * p.hours + 60 * p.minutes + p.seconds;
    var rest := secs * 1000000 + p.millis * 1000;
    assert a == days * DayMicros + rest;
    DivModUnique(a, DayMicros, days, rest);
    DivModUnique(rest, 1000000, secs, p.millis * 1000);
    DivModUnique(a, 1000000, days * 86400 + secs, p.millis * 1000);
    DivModUnique(p.millis * 1000, 1000, p.millis, 0);
    DivModUnique(days, 365, p.years, 30 * p.months + 7 * p.weeks + p.days);
    DivModUnique(30 * p.months + 7 * p.weeks + p.days, 30, p.months, 7 * p.weeks + p.days);
    DivModUnique(7 * p.weeks + p.days, 7, p.weeks, p.days);
    DivModUnique(secs, 3600, p.hours, 60 * p.minutes + p.seconds);
    DivModUnique(60 * p.minutes + p.seconds, 60, p.minutes, p.seconds);
  }
}

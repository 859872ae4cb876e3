/** The proleptic Gregorian calendar as Python's `datetime` module implements it:
    dates from 0001-01-01 to 9999-12-31, day ordinals with 0001-01-01 as day 1,
    and naive instants with microsecond resolution. */
module Civil {
  import opened Wrappers
  import opened Errors

  const MinYear: int := 1
  const MaxYear: int := 9999
  const DayMicros: int := 86400 * 1000000

  predicate IsLeap(y: int) {
    y % 4 == 0 && (y % 100 != 0 || y % 400 == 0)
  }

  function DaysInYear(y: int): int {
    if IsLeap(y) then 366 else 365
  }

  function DaysInMonth(y: int, m: int): int
    requires 1 <= m <= 12
  {
    if m == 2 then (if IsLeap(y) then 29 else 28)
    else if m == 4 || m == 6 || m == 9 || m == 11 then 30
    else 31
  }

  /** Days in the years 1 .. y-1. */
  function DaysBeforeYear(y: int): nat
    requires 1 <= y
    decreases y
  {
    if y == 1 then 0 else DaysBeforeYear(y - 1) + DaysInYear(y - 1)
  }

  /** Days in the months 1 .. m-1 of year y. */
  function DaysBeforeMonth(y: int, m: int): nat
    requires 1 <= m <= 12
  {
    if m == 1 then 0 else DaysBeforeMonth(y, m - 1) + DaysInMonth(y, m - 1)
  }

  datatype Date = Date(year: int, month: int, day: int)
  datatype Time = Time(hour: int, minute: int, second: int, micro: int)
  datatype DateTime = DateTime(date: Date, time: Time)

  predicate ValidDate(d: Date) {
    MinYear <= d.year <= MaxYear && 1 <= d.month <= 12 && 1 <= d.day <= DaysInMonth(d.year, d.month)
  }

  predicate ValidTime(t: Time) {
    0 <= t.hour < 24 && 0 <= t.minute < 60 && 0 <= t.second < 60 && 0 <= t.micro < 1000000
  }

  predicate Valid(dt: DateTime) {
    ValidDate(dt.date) && ValidTime(dt.time)
  }

  /** `datetime.date(y, m, d)`: raises ValueError on an impossible date. */
  function MakeDate(y: int, m: int, d: int): (r: Result<Date, Error>)
    ensures r.Success? <==> ValidDate(Date(y, m, d))
    ensures r.Success? ==> r.value == Date(y, m, d)
    ensures r.Failure? ==> r.error == ValueErr
  {
    if ValidDate(Date(y, m, d)) then Success(Date(y, m, d)) else Failure(ValueErr)
  }

  /** `datetime.time(h, m, s)`: raises ValueError on an impossible time of day. */
  function MakeTime(h: int, m: int, s: int): (r: Result<Time, Error>)
    ensures r.Success? <==> ValidTime(Time(h, m, s, 0))
    ensures r.Success? ==> r.value == Time(h, m, s, 0)
    ensures r.Failure? ==> r.error == ValueErr
  {
    if ValidTime(Time(h, m, s, 0)) then Success(Time(h, m, s, 0)) else Failure(ValueErr)
  }

  const Midnight: Time := Time(0, 0, 0, 0)

  /** Python's `date.toordinal()`. */
  function Ordinal(d: Date): int
    requires ValidDate(d)
  {
    DaysBeforeYear(d.year) + DaysBeforeMonth(d.year, d.month) + d.day
  }

  /** The ordinal of 9999-12-31, the last day `datetime` represents. */
  const MaxOrdinal: int := 3652059

  lemma MaxOrdinalIsLastDay()
    ensures DaysBeforeYear(MaxYear) + DaysInYear(MaxYear) == MaxOrdinal
  {
    DaysBeforeYearClosed(MaxYear);
  }

  lemma {:induction false} DaysBeforeMonthBound(y: int, m: int)
    requires 1 <= m <= 12
    ensures DaysBeforeMonth(y, m) + DaysInMonth(y, m) <= DaysInYear(y)
    ensures m == 12 ==> DaysBeforeMonth(y, m) + DaysInMonth(y, m) == DaysInYear(y)
  {
    var leap := if IsLeap(y) then 1 else 0;
    assert DaysBeforeMonth(y, 2) == 31;
    assert DaysBeforeMonth(y, 3) == 59 + leap;
    assert DaysBeforeMonth(y, 4) == 90 + leap;
    assert DaysBeforeMonth(y, 5) == 120 + leap;
    assert DaysBeforeMonth(y, 6) == 151 + leap;
    assert DaysBeforeMonth(y, 7) == 181 + leap;
    assert DaysBeforeMonth(y, 8) == 212 + leap;
    assert DaysBeforeMonth(y, 9) == 243 + leap;
    assert DaysBeforeMonth(y, 10) == 273 + leap;
    assert DaysBeforeMonth(y, 11) == 304 + leap;
    assert DaysBeforeMonth(y, 12) == 334 + leap;
  }

  lemma {:induction false} DaysBeforeYearMonotone(a: int, b: int)
    requires 1 <= a <= b
    ensures DaysBeforeYear(a) + (b - a) * 365 <= DaysBeforeYear(b)
    decreases b - a
  {
    if a < b {
      DaysBeforeYearMonotone(a, b - 1);
    }
  }

  lemma DivStep(n: int, k: int)
    requires 1 <= n && 1 <= k
    ensures n / k - (n - 1) / k == (if n % k == 0 then 1 else 0)
  {
    var q, r := (n - 1) / k, (n - 1) % k;
    if r == k - 1 {
      DivModUnique(n, k, q + 1, 0);
    } else {
      DivModUnique(n, k, q, r + 1);
    }
  }

  /** The closed form of the days before year y that `datetime._days_before_year` uses. */
  lemma {:induction false} DaysBeforeYearClosed(y: int)
    requires 1 <= y
    ensures DaysBeforeYear(y) == 365 * (y - 1) + (y - 1) / 4 - (y - 1) / 100 + (y - 1) / 400
    decreases y
  {
    if y > 1 {
      DaysBeforeYearClosed(y - 1);
      DivStep(y - 1, 4);
      DivStep(y - 1, 100);
      DivStep(y - 1, 400);
      LeapCount(y - 1);
    }
  }

  /** The length of year n by the three divisibility tests, counted separately. */
  lemma LeapCount(n: int)
    ensures DaysInYear(n) == 365 + (if n % 4 == 0 then 1 else 0) - (if n % 100 == 0 then 1 else 0) + (if n % 400 == 0 then 1 else 0)
  {
    if n % 400 == 0 {
      DivModUnique(n, 100, (n / 400) * 4, 0);
    }
    if n % 100 == 0 {
      DivModUnique(n, 4, (n / 100) * 25, 0);
    }
  }

  lemma OrdinalRange(d: Date)
    requires ValidDate(d)
    ensures 1 <= Ordinal(d) <= MaxOrdinal
  {
    DaysBeforeMonthBound(d.year, d.month);
    MaxOrdinalIsLastDay();
    if d.year < MaxYear {
      DaysBeforeYearMonotone(d.year + 1, MaxYear);
    }
  }

  /** Locates day n (counted from the first day of year y) by whole years. */
  function YearOf(n: int, y: int): (r: (int, int))
    requires 1 <= y && 1 <= n
    ensures y <= r.0 && 1 <= r.1 <= DaysInYear(r.0)
    ensures DaysBeforeYear(r.0) + r.1 == DaysBeforeYear(y) + n
    decreases n
  {
    if n <= DaysInYear(y) then (y, n) else YearOf(n - DaysInYear(y), y + 1)
  }

  /** Locates day n of year y (counted from the first day of month m) by months. */
  function MonthOf(y: int, n: int, m: int): (r: (int, int))
    requires 1 <= m <= 12 && 1 <= n
    requires DaysBeforeMonth(y, m) + n <= DaysInYear(y)
    ensures m <= r.0 <= 12 && 1 <= r.1 <= DaysInMonth(y, r.0)
    ensures DaysBeforeMonth(y, r.0) + r.1 == DaysBeforeMonth(y, m) + n
    decreases 12 - m
  {
    DaysBeforeMonthBound(y, m);
    if n <= DaysInMonth(y, m) then (m, n) else MonthOf(y, n - DaysInMonth(y, m), m + 1)
  }

  /** Python's `date.fromordinal(n)`. */
  function FromOrdinal(n: int): (d: Date)
    requires 1 <= n <= MaxOrdinal
    ensures ValidDate(d) && Ordinal(d) == n
  {
    var (y, doy) := YearOf(n, 1);
    if y > MaxYear then
      DaysBeforeYearMonotone(MaxYear + 1, y);
      MaxOrdinalIsLastDay();
      assert false;
      Date(MaxYear, 12, 31)
    else
      var (m, day) := MonthOf(y, doy, 1);
      Date(y, m, day)
  }

  lemma {:induction false} DaysBeforeMonthMonotone(y: int, a: int, b: int)
    requires 1 <= a < b <= 12
    ensures DaysBeforeMonth(y, a) + DaysInMonth(y, a) <= DaysBeforeMonth(y, b)
    decreases b - a
  {
    if a + 1 < b {
      DaysBeforeMonthMonotone(y, a, b - 1);
    }
  }

  /** Distinct valid dates have distinct ordinals. */
  lemma OrdinalInjective(d1: Date, d2: Date)
    requires ValidDate(d1) && ValidDate(d2)
    requires Ordinal(d1) == Ordinal(d2)
    ensures d1 == d2
  {
    var y1, y2 := d1.year, d2.year;
    var i1 := DaysBeforeMonth(y1, d1.month) + d1.day;
    var i2 := DaysBeforeMonth(y2, d2.month) + d2.day;
    DaysBeforeMonthBound(y1, d1.month);
    DaysBeforeMonthBound(y2, d2.month);
    if y1 < y2 {
      DaysBeforeYearMonotone(y1 + 1, y2);
      assert false;
    } else if y2 < y1 {
      DaysBeforeYearMonotone(y2 + 1, y1);
      assert false;
    }
    if d1.month < d2.month {
      DaysBeforeMonthMonotone(y1, d1.month, d2.month);
      assert false;
    } else if d2.month < d1.month {
      DaysBeforeMonthMonotone(y1, d2.month, d1.month);
      assert false;
    }
  }

  /** `date.fromordinal(date.toordinal())` is the identity. */
  lemma FromOrdinalOfOrdinal(d: Date)
    requires ValidDate(d)
    ensures 1 <= Ordinal(d) <= MaxOrdinal
    ensures FromOrdinal(Ordinal(d)) == d
  {
    OrdinalRange(d);
    OrdinalInjective(FromOrdinal(Ordinal(d)), d);
  }

  /** Python's `date.isoweekday()`: Monday is 1, Sunday is 7; 0001-01-01 was a Monday. */
  function IsoWeekday(d: Date): (w: int)
    requires ValidDate(d)
    ensures 1 <= w <= 7
    ensures (Ordinal(d) - w) % 7 == 0
  {
    var w := Ordinal(d) % 7;
    if w == 0 then 7 else w
  }

  /** The weekday is determined by the day ordinal modulo 7. */
  lemma WeekdayOf(d: Date, w: int)
    requires ValidDate(d) && 1 <= w <= 7 && (Ordinal(d) - w) % 7 == 0
    ensures IsoWeekday(d) == w
  {
    var q := (Ordinal(d) - w) / 7;
    DivModUnique(Ordinal(d) - w, 7, q, 0);
    if w == 7 {
      DivModUnique(Ordinal(d), 7, q + 1, 0);
    } else {
      DivModUnique(Ordinal(d), 7, q, w);
    }
  }

  /** Counting whole weeks and then w - 1 days on from a Monday lands on weekday w. */
  lemma WeeksFromMonday(monday: Date, d: Date, weeks: int, w: int)
    requires ValidDate(monday) && ValidDate(d) && IsoWeekday(monday) == 1 && 1 <= w <= 7
    requires Ordinal(d) == Ordinal(monday) + weeks * 7 + w - 1
    ensures IsoWeekday(d) == w
  {
    var q := (Ordinal(monday) - 1) / 7;
    DivModUnique(Ordinal(monday) - 1, 7, q, 0);
    DivModUnique(Ordinal(d) - w, 7, q + weeks, 0);
    WeekdayOf(d, w);
  }

  /** `date + timedelta(days=n)`: OverflowError outside years 1..9999. */
  function AddDays(d: Date, n: int): (r: Result<Date, Error>)
    requires ValidDate(d)
    ensures r.Success? <==> 1 <= Ordinal(d) + n <= MaxOrdinal
    ensures r.Success? ==> ValidDate(r.value) && Ordinal(r.value) == Ordinal(d) + n
    ensures r.Failure? ==> r.error == Overflow
  {
    var o := Ordinal(d) + n;
    if 1 <= o <= MaxOrdinal then Success(FromOrdinal(o)) else Failure(Overflow)
  }

  /** Seconds elapsed since midnight. */
  function SecondOfDay(t: Time): int {
    t.hour * 3600 + t.minute * 60 + t.second
  }

  /** Microseconds elapsed from 0001-01-01T00:00 to dt: the instant's position on
      the time line, against which Python's datetime arithmetic is exact. */
  function TotalMicros(dt: DateTime): (t: int)
    requires Valid(dt)
    ensures 0 <= t < MaxOrdinal * DayMicros
  {
    var o := Ordinal(dt.date);
    OrdinalRange(dt.date);
    var rest := SecondOfDay(dt.time) * 1000000 + dt.time.micro;
    assert 0 <= rest < DayMicros;
    PositionBound(o, rest, MaxOrdinal, DayMicros);
    (o - 1) * DayMicros + rest
  }

  /** The position counts whole days before the date, then seconds and
      microseconds into the day. */
  lemma TotalMicrosParts(dt: DateTime)
    requires Valid(dt)
    ensures TotalMicros(dt) == (Ordinal(dt.date) - 1) * DayMicros + SecondOfDay(dt.time) * 1000000 + dt.time.micro
  {
  }

  /** Day o of n, at offset rest into a day of b units, lies within n days. */
  lemma PositionBound(o: int, rest: int, n: int, b: int)
    requires 1 <= o <= n && 0 <= rest < b
    ensures 0 <= (o - 1) * b + rest < n * b
  {
    MulMono(0, o - 1, b);
    MulMono(o, n, b);
    assert (o - 1) * b + b == o * b;
  }

  lemma MulMono(x: int, y: int, b: int)
    requires x <= y && 0 <= b
    ensures x * b <= y * b
  {
    assert y * b - x * b == (y - x) * b;
  }

  lemma DivModUnique(t: int, b: int, q: int, r: int)
    requires 0 < b && 0 <= r < b && t == q * b + r
    ensures t / b == q && t % b == r
  {
    var q' := t / b;
    var r' := t % b;
    assert t == q' * b + r';
    if q > q' {
      MulMono(q' + 1, q, b);
    } else if q < q' {
      MulMono(q + 1, q', b);
    }
  }

  /** Splits a second of the day into hour, minute and second. */
  function TimeOfSecond(sec: int, micro: int): (t: Time)
    requires 0 <= sec < 86400 && 0 <= micro < 1000000
    ensures ValidTime(t) && SecondOfDay(t) == sec && t.micro == micro
  {
    Time(sec / 3600, sec % 3600 / 60, sec % 60, micro)
  }

  /** The instant at position t of the time line. */
  function FromMicros(t: int): (dt: DateTime)
    requires 0 <= t < MaxOrdinal * DayMicros
    ensures Valid(dt) && TotalMicros(dt) == t
  {
    var days := t / DayMicros;
    var rest := t % DayMicros;
    assert t == days * DayMicros + rest;
    if days >= MaxOrdinal then
      MulMono(MaxOrdinal, days, DayMicros);
      assert false;
      DateTime(Date(MaxYear, 12, 31), Midnight)
    else
      DateTime(FromOrdinal(days + 1), TimeOfSecond(rest / 1000000, rest % 1000000))
  }

  /** Position on the time line determines the instant. */
  lemma TotalMicrosInjective(a: DateTime, b: DateTime)
    requires Valid(a) && Valid(b) && TotalMicros(a) == TotalMicros(b)
    ensures a == b
  {
    var sa, sb := SecondOfDay(a.time), SecondOfDay(b.time);
    var t := TotalMicros(a);
    DivModUnique(t, DayMicros, Ordinal(a.date) - 1, sa * 1000000 + a.time.micro);
    DivModUnique(t, DayMicros, Ordinal(b.date) - 1, sb * 1000000 + b.time.micro);
    OrdinalInjective(a.date, b.date);
    DivModUnique(sa * 1000000 + a.time.micro, 1000000, sa, a.time.micro);
    DivModUnique(sb * 1000000 + b.time.micro, 1000000, sb, b.time.micro);
    DivModUnique(sa, 3600, a.time.hour, a.time.minute * 60 + a.time.second);
    DivModUnique(sb, 3600, b.time.hour, b.time.minute * 60 + b.time.second);
    DivModUnique(a.time.minute * 60 + a.time.second, 60, a.time.minute, a.time.second);
    DivModUnique(b.time.minute * 60 + b.time.second, 60, b.time.minute, b.time.second);
  }

  lemma FromMicrosOfTotal(dt: DateTime)
    requires Valid(dt)
    ensures FromMicros(TotalMicros(dt)) == dt
  {
    TotalMicrosInjective(FromMicros(TotalMicros(dt)), dt);
  }

  /** `datetime + timedelta(microseconds=delta)`: exact, OverflowError outside years 1..9999. */
  function AddMicros(dt: DateTime, delta: int): (r: Result<DateTime, Error>)
    requires Valid(dt)
    ensures r.Success? <==> 0 <= TotalMicros(dt) + delta < MaxOrdinal * DayMicros
    ensures r.Success? ==> Valid(r.value) && TotalMicros(r.value) == TotalMicros(dt) + delta
    ensures r.Failure? ==> r.error == Overflow
  {
    var t := TotalMicros(dt) + delta;
    if 0 <= t < MaxOrdinal * DayMicros then Success(FromMicros(t)) else Failure(Overflow)
  }

  /** `datetime - datetime`, in microseconds. */
  function DiffMicros(a: DateTime, b: DateTime): (delta: int)
    requires Valid(a) && Valid(b)
    ensures AddMicros(b, delta) == Success(a)
  {
    var delta := TotalMicros(a) - TotalMicros(b);
    ShiftOntoTotal(a, b, delta);
    delta
  }

  lemma ShiftOntoTotal(a: DateTime, b: DateTime, delta: int)
    requires Valid(a) && Valid(b) && delta == TotalMicros(a) - TotalMicros(b)
    ensures AddMicros(b, delta) == Success(a)
  {
    var r := AddMicros(b, delta);
    assert r.Success?;
    TotalMicrosInjective(r.value, a);
  }
}

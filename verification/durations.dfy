/** durations.py, an earlier draft of the calculator with conventions of its own:
    a Duration keeps a count per unit and is renormalised through `timedelta`
    only when added or subtracted; a Datetime is six integer fields where zero
    means unset; adding months and years to a Datetime is calendar-aware;
    operators raise BadOperandException instead of returning None; and the
    hand-written parser groups `+` and `-` to the right. */
module Draft {
  import opened Wrappers
  import opened Errors
  import opened Civil
  import opened Fields
  import opened Text
  import opened Breakdown
  import opened Literals

  // ---- Duration

  /** All counts zero: `Duration()`. */
  const Zero: Parts := Parts(0, 0, 0, 0, 0, 0, 0, 0)

  /** The field of the token that holds the count of a unit. */
  function FieldOf(u: Unit): string {
    match u
    case Years => "years"
    case Months => "months"
    case Weeks => "weeks"
    case Days => "days"
    case Hours => "hours"
    case Minutes => "minutes"
    case Seconds => "seconds"
    case Milliseconds => "milliseconds"
  }

  /** `float(d.get(unit, 0))` for one unit: the count the token gives, or zero. */
  function Count(d: Captures, u: Unit): (r: Result<int, Error>)
    ensures FieldOf(u) !in d ==> r == Success(0)
    ensures FieldOf(u) in d ==> r == ParseInt(d[FieldOf(u)])
  {
    IntField(d, FieldOf(u), Some(0))
  }

  /** `Duration(d)`: every unit's count read from the token's fields, zero for a
      unit the token does not mention. */
  function DurationOf(d: Captures): (r: Result<Parts, Error>)
    ensures r.Success? ==> forall u: Unit :: Count(d, u) == Success(r.value.Get(u))
    ensures r.Failure? ==> r.error == ValueErr && exists u: Unit :: Count(d, u).Failure?
  {
    var y :- Count(d, Years);
    var mo :- Count(d, Months);
    var w :- Count(d, Weeks);
    var dd :- Count(d, Days);
    var h :- Count(d, Hours);
    var mi :- Count(d, Minutes);
    var s :- Count(d, Seconds);
    var ms :- Count(d, Milliseconds);
    var p := Parts(y, mo, w, dd, h, mi, s, ms);
    EveryCount(d, p);
    Success(p)
  }

  lemma EveryCount(d: Captures, p: Parts)
    requires Count(d, Years) == Success(p.years) && Count(d, Months) == Success(p.months)
    requires Count(d, Weeks) == Success(p.weeks) && Count(d, Days) == Success(p.days)
    requires Count(d, Hours) == Success(p.hours) && Count(d, Minutes) == Success(p.minutes)
    requires Count(d, Seconds) == Success(p.seconds) && Count(d, Milliseconds) == Success(p.millis)
    ensures forall u: Unit :: Count(d, u) == Success(p.Get(u))
  {
    forall u: Unit ensures Count(d, u) == Success(p.Get(u)) {
      match u
      case Years => case Months => case Weeks => case Days =>
      case Hours => case Minutes => case Seconds => case Milliseconds =>
    }
  }

  /** `self.timedelta() + other.timedelta()` renormalised by `set_timedelta`. */
  function DurationAdd(a: Parts, b: Parts): (r: Parts)
    ensures Total(r) == Total(a) + Total(b)
    ensures Total(r) >= 0 ==> Canonical(r)
    ensures Total(r) < 0 ==> Canonical(Negate(r))
  {
    var t := Total(a) + Total(b);
    WholeMillis(a);
    WholeMillis(b);
    WholeMillisCombine(Total(a), Total(b));
    SplitRoundTrip(t);
    Split(t)
  }

  /** `self.timedelta() - other.timedelta()` renormalised by `set_timedelta`. */
  function DurationSub(a: Parts, b: Parts): (r: Parts)
    ensures Total(r) == Total(a) - Total(b)
    ensures Total(r) >= 0 ==> Canonical(r)
    ensures Total(r) < 0 ==> Canonical(Negate(r))
  {
    var t := Total(a) - Total(b);
    WholeMillis(a);
    WholeMillis(b);
    WholeMillisCombine(Total(a), Total(b));
    SplitRoundTrip(t);
    Split(t)
  }

  /** Sums and differences of whole milliseconds are whole milliseconds. */
  lemma WholeMillisCombine(x: int, y: int)
    requires x % 1000 == 0 && y % 1000 == 0
    ensures (x + y) % 1000 == 0 && (x - y) % 1000 == 0
  {
    DivModUnique(x + y, 1000, x / 1000 + y / 1000, 0);
    DivModUnique(x - y, 1000, x / 1000 - y / 1000, 0);
  }

  /** Counts of whole units always make a whole number of milliseconds. */
  lemma WholeMillis(p: Parts)
    ensures Total(p) % 1000 == 0
  {
    var k := (365 * p.years + 30 * p.months + 7 * p.weeks + p.days) * 86400000
      + (3600 * p.hours + 60 * p.minutes + p.seconds) * 1000 + p.millis;
    assert Total(p) == k * 1000;
  }

  /** What raising one of the draft's exceptions ends in, as their constructors are
      written: `ParserException.__init__` stores None as `after_token` whatever it is
      given (durations.py:70), and `CombinedException.__init__` then reads
      `self.after_token.type` (durations.py:90), an AttributeError. The other
      exceptions only format None into their messages, which does not fail. */
  function Raised(e: Error): (r: Error)
    ensures r != Combined
    ensures e != Combined ==> r == e
  {
    if e == Combined then AttributeErr else e
  }

  /** `Duration.merge` as it was meant to behave: the unit-wise sum of two
      durations that share no unit, CombinedException when some unit is nonzero
      in both. */
  function MergeIntended(a: Parts, b: Parts): (r: Result<Parts, Error>)
    ensures r.Failure? <==> exists u: Unit :: a.Get(u) != 0 && b.Get(u) != 0
    ensures r.Failure? ==> r.error == Combined
    ensures r.Success? ==> forall u: Unit :: r.value.Get(u) == (if a.Get(u) != 0 then a.Get(u) else b.Get(u))
  {
    if exists u: Unit :: a.Get(u) != 0 && b.Get(u) != 0 then Failure(Combined)
    else Success(Parts(a.years + b.years, a.months + b.months, a.weeks + b.weeks, a.days + b.days,
                       a.hours + b.hours, a.minutes + b.minutes, a.seconds + b.seconds, a.millis + b.millis))
  }

  /** `Duration.merge` as written: the raise of CombinedException on a shared unit
      ends in an AttributeError instead. */
  function Merge(a: Parts, b: Parts): (r: Result<Parts, Error>)
    ensures r.Failure? <==> exists u: Unit :: a.Get(u) != 0 && b.Get(u) != 0
    ensures r.Failure? ==> r.error == AttributeErr
    ensures r.Success? ==> forall u: Unit :: r.value.Get(u) == (if a.Get(u) != 0 then a.Get(u) else b.Get(u))
  {
    match MergeIntended(a, b)
    case Success(m) => Success(m)
    case Failure(e) => Failure(Raised(e))
  }

  /** Merging two durations that share no unit gives what adding them gives, up to
      the renormalisation that only addition performs. */
  lemma MergeAgreesWithAdd(a: Parts, b: Parts)
    requires Merge(a, b).Success?
    ensures Total(Merge(a, b).value) == Total(a) + Total(b)
    ensures Split(Total(Merge(a, b).value)) == DurationAdd(a, b)
  {
    var m := MergeIntended(a, b).value;
    assert m == Parts(a.years + b.years, a.months + b.months, a.weeks + b.weeks, a.days + b.days,
                      a.hours + b.hours, a.minutes + b.minutes, a.seconds + b.seconds, a.millis + b.millis);
  }

  /** `Duration * Factor`: every count multiplied, without renormalising. */
  function Scale(p: Parts, f: int): (r: Parts)
    ensures forall u: Unit :: r.Get(u) == p.Get(u) * f
  {
    Parts(p.years * f, p.months * f, p.weeks * f, p.days * f, p.hours * f, p.minutes * f, p.seconds * f, p.millis * f)
  }

  /** Scaling the counts scales the length of the duration. */
  lemma ScaleTotal(p: Parts, f: int)
    ensures Total(Scale(p, f)) == f * Total(p)
  {
    var days := 365 * p.years + 30 * p.months + 7 * p.weeks + p.days;
    var secs := 3600 * p.hours + 60 * p.minutes + p.seconds;
    var q := Scale(p, f);
    assert 365 * q.years + 30 * q.months + 7 * q.weeks + q.days == days * f;
    assert 3600 * q.hours + 60 * q.minutes + q.seconds == secs * f;
    assert Total(q) == (days * f) * DayMicros + (secs * f) * 1000000 + (p.millis * f) * 1000;
    assert (days * f) * DayMicros == f * (days * DayMicros);
    assert (secs * f) * 1000000 == f * (secs * 1000000);
    assert (p.millis * f) * 1000 == f * (p.millis * 1000);
  }

  /** The lengths of a list of durations, added up. */
  function TotalSum(ds: seq<Parts>): int {
    if |ds| == 0 then 0 else TotalSum(ds[..|ds| - 1]) + Total(ds[|ds| - 1])
  }

  lemma {:induction false} TotalSumWhole(ds: seq<Parts>)
    ensures TotalSum(ds) % 1000 == 0
  {
    if |ds| > 0 {
      TotalSumWhole(ds[..|ds| - 1]);
      WholeMillis(ds[|ds| - 1]);
    }
  }

  /** `sum(durations, Duration())`: the durations added one by one to a zero
      duration, each addition renormalising; the result is the one breakdown of
      their total. */
  function SumDurations(ds: seq<Parts>): (r: Parts)
    ensures r == Split(TotalSum(ds))
  {
    if |ds| == 0 then Zero
    else
      var prefix := ds[..|ds| - 1];
      TotalSumWhole(prefix);
      SplitRoundTrip(TotalSum(prefix));
      DurationAdd(SumDurations(prefix), ds[|ds| - 1])
  }

  // ---- Datetime

  /** The fields of a durations.py Datetime; zero stands for a field not given. */
  datatype Stamp = Stamp(year: int, month: int, day: int, hour: int, minute: int, second: int)

  /** `Datetime(d)`: the integer fields of the token, zero when absent, with the
      12-hour clock turned into the 24-hour one when the token has am or pm. */
  function StampOf(d: Captures): (r: Result<Stamp, Error>)
    ensures r.Success? <==>
      Readable(d, "year") && Readable(d, "month") && Readable(d, "day")
      && Readable(d, "hour") && Readable(d, "minute") && Readable(d, "second")
    ensures r.Success? ==>
      Spells(d, "year", r.value.year) && Spells(d, "month", r.value.month) && Spells(d, "day", r.value.day)
      && Spells(d, "minute", r.value.minute) && Spells(d, "second", r.value.second)
    ensures r.Success? ==>
      ("hour" in d ==> AllDigits(d["hour"]))
      && r.value.hour == ClockHour(if "hour" in d then DigitsValue(d["hour"]) else 0, Get(d, "ampm"))
    ensures r.Failure? ==> r.error == ValueErr
  {
    var y :- IntField(d, "year", Some(0));
    var mo :- IntField(d, "month", Some(0));
    var dd :- IntField(d, "day", Some(0));
    var h :- IntField(d, "hour", Some(0));
    var mi :- IntField(d, "minute", Some(0));
    var s :- IntField(d, "second", Some(0));
    assert "hour" in d ==> AllDigits(d["hour"]) && h == DigitsValue(d["hour"]);
    assert "year" in d ==> AllDigits(d["year"]) && y == DigitsValue(d["year"]);
    Success(Stamp(y, mo, dd, ClockHour(h, Get(d, "ampm")), mi, s))
  }

  /** Whether a field is given (nonzero) in both stamps. */
  predicate Clash(a: Stamp, b: Stamp) {
    (a.year != 0 && b.year != 0) || (a.month != 0 && b.month != 0) || (a.day != 0 && b.day != 0)
    || (a.hour != 0 && b.hour != 0) || (a.minute != 0 && b.minute != 0) || (a.second != 0 && b.second != 0)
  }

  /** `Datetime.combine(a, b)` as it was meant to behave: each field from whichever
      stamp gives it; CombinedException when both give the same field. */
  function CombineStampsIntended(a: Stamp, b: Stamp): (r: Result<Stamp, Error>)
    ensures r.Failure? <==> Clash(a, b)
    ensures r.Failure? ==> r.error == Combined
    ensures r.Success? ==>
      r.value.year == (if a.year != 0 then a.year else b.year)
      && r.value.month == (if a.month != 0 then a.month else b.month)
      && r.value.day == (if a.day != 0 then a.day else b.day)
      && r.value.hour == (if a.hour != 0 then a.hour else b.hour)
      && r.value.minute == (if a.minute != 0 then a.minute else b.minute)
      && r.value.second == (if a.second != 0 then a.second else b.second)
  {
    if Clash(a, b) then Failure(Combined)
    else Success(Stamp(a.year + b.year, a.month + b.month, a.day + b.day,
                       a.hour + b.hour, a.minute + b.minute, a.second + b.second))
  }

  /** `Datetime.combine(a, b)` as written: on a clash the raise of
      CombinedException ends in an AttributeError. */
  function CombineStamps(a: Stamp, b: Stamp): (r: Result<Stamp, Error>)
    ensures r.Failure? <==> Clash(a, b)
    ensures r.Failure? ==> r.error == AttributeErr
    ensures r.Success? ==> r == CombineStampsIntended(a, b)
  {
    match CombineStampsIntended(a, b)
    case Success(c) => Success(c)
    case Failure(e) => Failure(Raised(e))
  }

  /** Two dates written next to each other both give a year, so `combine` was meant
      to reject them with CombinedException; the program ends in AttributeError,
      as it does for every clash. */
  lemma CombinedNeverRaised()
    ensures CombineStamps(Stamp(2015, 1, 1, 0, 0, 0), Stamp(2016, 2, 2, 0, 0, 0)) == Failure(AttributeErr)
    ensures CombineStampsIntended(Stamp(2015, 1, 1, 0, 0, 0), Stamp(2016, 2, 2, 0, 0, 0)) == Failure(Combined)
    ensures Parse([Val(Dt(Stamp(2015, 1, 1, 0, 0, 0))), Val(Dt(Stamp(2016, 2, 2, 0, 0, 0)))]) == Failure(AttributeErr)
    ensures forall a: Stamp, b: Stamp :: CombineStamps(a, b) != Failure(Combined)
  {
    var toks := [Val(Dt(Stamp(2015, 1, 1, 0, 0, 0))), Val(Dt(Stamp(2016, 2, 2, 0, 0, 0)))];
    assert ParseFactor(toks, 0) == Failure(AttributeErr);
  }

  /** `Datetime.datetime()`: ValueError when the fields name no instant, as they do
      for a date alone (hour 0 is fine) or a time alone (year 0 is not). */
  function ToDateTime(s: Stamp): (r: Result<DateTime, Error>)
    ensures r.Success? <==> Valid(DateTime(Date(s.year, s.month, s.day), Time(s.hour, s.minute, s.second, 0)))
    ensures r.Success? ==> r.value == DateTime(Date(s.year, s.month, s.day), Time(s.hour, s.minute, s.second, 0))
    ensures r.Failure? ==> r.error == ValueErr
  {
    var date :- MakeDate(s.year, s.month, s.day);
    var time :- MakeTime(s.hour, s.minute, s.second);
    Success(DateTime(date, time))
  }

  /** `Datetime.set_datetime(dt)`: the fields year to second; microseconds are lost. */
  function StampOfDateTime(dt: DateTime): Stamp {
    Stamp(dt.date.year, dt.date.month, dt.date.day, dt.time.hour, dt.time.minute, dt.time.second)
  }

  /** Reading an instant's fields back gives the instant, to the second. */
  lemma DateTimeRoundTrip(dt: DateTime)
    requires Valid(dt) && dt.time.micro == 0
    ensures ToDateTime(StampOfDateTime(dt)) == Success(dt)
  {
  }

  /** 12 * year + month - 1: months since the start of year 0. */
  function MonthIndex(year: int, month: int): int {
    12 * year + month - 1
  }

  /** The given day of the month with index k. */
  function MonthDate(k: int, day: int): (d: Date)
    ensures 1 <= d.month <= 12 && MonthIndex(d.year, d.month) == k && d.day == day
  {
    Date(k / 12, k % 12 + 1, day)
  }

  /** x forward, -x backward. */
  function Signed(forward: bool, x: int): int {
    if forward then x else -x
  }

  /** The first step of `_add_duration`: the instant shifted by the weeks to
      milliseconds of the duration, forward or backward. */
  function Shifted(s: Stamp, p: Parts, forward: bool): (r: Result<DateTime, Error>)
    ensures r.Success? <==>
      ToDateTime(s).Success?
      && 0 <= TotalMicros(ToDateTime(s).value) + Signed(forward, Total(p.(years := 0, months := 0))) < MaxOrdinal * DayMicros
    ensures r.Success? ==> Valid(r.value) && ToDateTime(s).Success?
    ensures r.Success? ==>
      TotalMicros(r.value) == TotalMicros(ToDateTime(s).value) + Signed(forward, Total(p.(years := 0, months := 0)))
    ensures r.Failure? ==> r.error in {ValueErr, Overflow}
  {
    var dt :- ToDateTime(s);
    var delta := Total(p.(years := 0, months := 0));
    AddMicros(dt, Signed(forward, delta))
  }

  /** `Datetime._add_duration(other, positive)`: shift by the weeks to milliseconds
      as a timedelta, then move the month by `divmod(month ± months - 1, 12)`,
      carrying into the year, and the year by the years, keeping the day of the
      month and the time of day; `replace` raises ValueError when that day does not
      exist in the new month or the year leaves 1..9999. */
  function AddDuration(s: Stamp, p: Parts, forward: bool): (r: Result<Stamp, Error>)
    ensures Shifted(s, p, forward).Failure? ==> r == Failure(Shifted(s, p, forward).error)
    ensures Shifted(s, p, forward).Success? ==> MonthMoved(Shifted(s, p, forward).value, p, forward, r)
    ensures r.Success? ==> ToDateTime(r.value).Success?
    ensures r.Failure? ==> r.error in {ValueErr, Overflow}
  {
    match Shifted(s, p, forward)
    case Failure(e) => Failure(e)
    case Success(t) => MoveMonths(t, p, forward)
  }

  /** What moving instant t by the years and months of p gives: the stamp of the
      same day of the month and time of day in the month that many months on (or
      back), or ValueError exactly when that day does not exist there. */
  predicate MonthMoved(t: DateTime, p: Parts, forward: bool, r: Result<Stamp, Error>) {
    var target := MonthIndex(t.date.year, t.date.month) + Signed(forward, 12 * p.years + p.months);
    && (r.Success? <==> ValidDate(MonthDate(target, t.date.day)))
    && (r.Success? ==> 1 <= r.value.month <= 12 && MonthIndex(r.value.year, r.value.month) == target)
    && (r.Success? ==> r.value.day == t.date.day && r.value.hour == t.time.hour
                       && r.value.minute == t.time.minute && r.value.second == t.time.second)
    && (r.Failure? ==> r.error == ValueErr)
  }

  /** The second step of `_add_duration`: `divmod` of the month moved by the
      months, the quotient carried into the year along with the years, and
      `dt.replace(year, month)`. */
  function MoveMonths(t: DateTime, p: Parts, forward: bool): (r: Result<Stamp, Error>)
    requires Valid(t)
    ensures MonthMoved(t, p, forward, r)
    ensures r.Success? ==> ToDateTime(r.value).Success?
  {
    var k := if forward then t.date.month + p.months - 1 else t.date.month - p.months - 1;
    var base := if forward then t.date.year + p.years else t.date.year - p.years;
    var year := k / 12 + base;
    CarryMonth(base, k);
    var date :- MakeDate(year, k % 12 + 1, t.date.day);
    Success(StampOfDateTime(DateTime(date, t.time)))
  }

  /** `divmod(k, 12)` with the years added afterwards is the year and month of
      month index 12 * base + k. */
  lemma CarryMonth(base: int, k: int)
    ensures (12 * base + k) / 12 == base + k / 12 && (12 * base + k) % 12 == k % 12
  {
    DivModUnique(12 * base + k, 12, base + k / 12, k % 12);
  }

  /** A duration of only years and months leaves the instant where it is before
      the month moves. */
  lemma ShiftByNothing(s: Stamp, p: Parts, forward: bool)
    requires ToDateTime(s).Success? && Total(p.(years := 0, months := 0)) == 0
    ensures Shifted(s, p, forward) == ToDateTime(s)
  {
    var dt := ToDateTime(s).value;
    assert Signed(forward, 0) == 0;
    var r := AddMicros(dt, 0);
    TotalMicrosInjective(r.value, dt);
    assert Shifted(s, p, forward) == r;
  }

  /** Adding (or subtracting) only years and months moves a stamp to the same day
      of the month that many months on (or back), when that day exists. */
  lemma MonthsOnly(s: Stamp, p: Parts, forward: bool, m: Date)
    requires ToDateTime(s).Success? && Total(p.(years := 0, months := 0)) == 0
    requires ValidDate(m) && m.day == s.day
    requires MonthIndex(m.year, m.month) == MonthIndex(s.year, s.month) + Signed(forward, 12 * p.years + p.months)
    ensures AddDuration(s, p, forward) == Success(s.(year := m.year, month := m.month))
  {
    ShiftByNothing(s, p, forward);
    var t := ToDateTime(s).value;
    MoveStamp(s, t, p, forward, m);
    assert AddDuration(s, p, forward) == MoveMonths(t, p, forward);
  }

  lemma MoveStamp(s: Stamp, t: DateTime, p: Parts, forward: bool, m: Date)
    requires Valid(t) && t == DateTime(Date(s.year, s.month, s.day), Time(s.hour, s.minute, s.second, 0))
    requires ValidDate(m) && m.day == s.day
    requires MonthIndex(m.year, m.month) == MonthIndex(s.year, s.month) + Signed(forward, 12 * p.years + p.months)
    ensures MoveMonths(t, p, forward) == Success(s.(year := m.year, month := m.month))
  {
    var target := MonthIndex(s.year, s.month) + Signed(forward, 12 * p.years + p.months);
    var md := MonthDate(target, s.day);
    MonthIndexUnique(md.year, md.month, m.year, m.month);
    var r := MoveMonths(t, p, forward);
    assert MonthMoved(t, p, forward, r);
    var q := r.value;
    MonthIndexUnique(q.year, q.month, m.year, m.month);
  }

  /** Moving a stamp n months on and then n months back restores it whenever its
      day of the month exists n months on. */
  lemma MonthsThereAndBack(s: Stamp, n: int, m: Date)
    requires ToDateTime(s).Success?
    requires ValidDate(m) && m.day == s.day && MonthIndex(m.year, m.month) == MonthIndex(s.year, s.month) + n
    ensures AddDuration(s, Zero.(months := n), true) == Success(s.(year := m.year, month := m.month))
    ensures AddDuration(s.(year := m.year, month := m.month), Zero.(months := n), false) == Success(s)
  {
    var p := Zero.(months := n);
    MonthsOnly(s, p, true, m);
    var later := s.(year := m.year, month := m.month);
    MonthsOnly(later, p, false, Date(s.year, s.month, s.day));
  }

  /** A month index names one year and month. */
  lemma MonthIndexUnique(y1: int, m1: int, y2: int, m2: int)
    requires 1 <= m1 <= 12 && 1 <= m2 <= 12 && MonthIndex(y1, m1) == MonthIndex(y2, m2)
    ensures y1 == y2 && m1 == m2
  {
    DivModUnique(MonthIndex(y1, m1), 12, y1, m1 - 1);
    DivModUnique(MonthIndex(y2, m2), 12, y2, m2 - 1);
  }

  /** `y/01/15 + 1 month` is the 15th of February of year y. */
  lemma MidJanuaryPlusMonth(y: int)
    requires MinYear <= y <= MaxYear
    ensures AddDuration(Stamp(y, 1, 15, 0, 0, 0), Zero.(months := 1), true) == Success(Stamp(y, 2, 15, 0, 0, 0))
  {
    MonthsOnly(Stamp(y, 1, 15, 0, 0, 0), Zero.(months := 1), true, Date(y, 2, 15));
  }

  /** A 31 January plus one month raises ValueError: February has no 31st. */
  lemma JanuaryThirtyFirst(s: Stamp)
    requires ToDateTime(s).Success? && s.month == 1 && s.day == 31
    ensures AddDuration(s, Zero.(months := 1), true) == Failure(ValueErr)
  {
    var t := ToDateTime(s).value;
    NoFebruaryThirtyFirst(t, Zero.(months := 1));
    MissingDay(s, Zero.(months := 1), true, t);
  }

  lemma MissingDay(s: Stamp, p: Parts, forward: bool, t: DateTime)
    requires ToDateTime(s) == Success(t) && Total(p.(years := 0, months := 0)) == 0
    requires MoveMonths(t, p, forward) == Failure(ValueErr)
    ensures AddDuration(s, p, forward) == Failure(ValueErr)
  {
    ShiftByNothing(s, p, forward);
  }

  lemma NoFebruaryThirtyFirst(t: DateTime, p: Parts)
    requires Valid(t) && t.date.month == 1 && t.date.day == 31 && p == Zero.(months := 1)
    ensures MoveMonths(t, p, true) == Failure(ValueErr)
  {
    var m := MonthDate(MonthIndex(t.date.year, 1) + 1, 31);
    MonthIndexUnique(m.year, m.month, t.date.year, 2);
    assert MonthMoved(t, p, true, MoveMonths(t, p, true));
  }

  /** `Datetime - Datetime`: `set_timedelta` of the exact difference. */
  function Difference(a: Stamp, b: Stamp): (r: Result<Parts, Error>)
    ensures r.Success? <==> ToDateTime(a).Success? && ToDateTime(b).Success?
    ensures r.Success? ==> Total(r.value) == DiffMicros(ToDateTime(a).value, ToDateTime(b).value)
    ensures r.Success? && Total(r.value) >= 0 ==> Canonical(r.value)
    ensures r.Success? && Total(r.value) < 0 ==> Canonical(Negate(r.value))
    ensures r.Failure? ==> r.error == ValueErr
  {
    var x :- ToDateTime(a);
    var y :- ToDateTime(b);
    WholeSecondsApart(x, y);
    Success(Split(DiffMicros(x, y)))
  }

  lemma WholeMillisOf(dt: DateTime) returns (k: int)
    requires Valid(dt) && dt.time.micro == 0
    ensures TotalMicros(dt) == k * 1000
  {
    var o := Ordinal(dt.date);
    var sec := SecondOfDay(dt.time);
    TotalMicrosParts(dt);
    k := (o - 1) * 86400000 + sec * 1000;
    ThousandFold(o - 1, sec);
  }

  /** Instants with no microseconds lie a whole number of milliseconds apart, so
      the breakdown of their difference is exact. */
  lemma WholeSecondsApart(x: DateTime, y: DateTime)
    requires Valid(x) && x.time.micro == 0 && Valid(y) && y.time.micro == 0
    ensures Total(Split(DiffMicros(x, y))) == DiffMicros(x, y)
  {
    var kx := WholeMillisOf(x);
    var ky := WholeMillisOf(y);
    var delta := DiffMicros(x, y);
    assert delta == (kx - ky) * 1000;
    DivModUnique(delta, 1000, kx - ky, 0);
    SplitRoundTrip(delta);
  }

  // ---- operators

  /** The three kinds of operand: a Duration, a Datetime, and a Factor (an integer
      scalar, `float(\d+)` and what `+ - *` make of it). */
  datatype Operand = Dur(parts: Parts) | Dt(stamp: Stamp) | Fac(x: int)

  /** `left + right`, `left - right`, `left * right` through the operand classes'
      methods; any other operator fails the `assert False` of `Operator.apply`. */
  function Apply(op: char, left: Operand, right: Operand): (r: Result<Operand, Error>)
    ensures r.Failure? && op !in {'+', '-', '*'} ==> r.error == AssertionErr
    ensures r.Failure? && r.error.BadOperandDraft? ==> r.error.op == op
    ensures r.Failure? ==> r.error in {AssertionErr, BadOperandDraft(op), ValueErr, Overflow}
  {
    match (op, left, right)
    case ('+', Dur(a), Dur(b)) => Success(Dur(DurationAdd(a, b)))
    case ('+', Dur(a), Dt(s)) => var t :- AddDuration(s, a, true); Success(Dt(t))
    case ('+', Fac(a), Fac(b)) => Success(Fac(a + b))
    case ('+', Dt(s), Dur(b)) => var t :- AddDuration(s, b, true); Success(Dt(t))
    case ('+', _, _) => Failure(BadOperandDraft('+'))
    case ('-', Dur(a), Dur(b)) => Success(Dur(DurationSub(a, b)))
    case ('-', Fac(a), Fac(b)) => Success(Fac(a - b))
    case ('-', Dt(s), Dur(b)) => var t :- AddDuration(s, b, false); Success(Dt(t))
    case ('-', Dt(s), Dt(u)) => var d :- Difference(s, u); Success(Dur(d))
    case ('-', _, _) => Failure(BadOperandDraft('-'))
    case ('*', Dur(a), Fac(f)) => Success(Dur(Scale(a, f)))
    case ('*', Fac(f), Dur(a)) => Success(Dur(Scale(a, f)))
    case ('*', Fac(a), Fac(b)) => Success(Fac(a * b))
    case ('*', _, _) => Failure(BadOperandDraft('*'))
    case _ => Failure(AssertionErr)
  }

  /** The operand kinds each operator is defined on in the draft. */
  predicate Defined(op: char, left: Operand, right: Operand) {
    match (op, left, right)
    case ('+', Dur(_), Dur(_)) => true
    case ('+', Dur(_), Dt(_)) => true
    case ('+', Dt(_), Dur(_)) => true
    case ('+', Fac(_), Fac(_)) => true
    case ('-', Dur(_), Dur(_)) => true
    case ('-', Dt(_), Dur(_)) => true
    case ('-', Dt(_), Dt(_)) => true
    case ('-', Fac(_), Fac(_)) => true
    case ('*', Dur(_), Fac(_)) => true
    case ('*', Fac(_), Dur(_)) => true
    case ('*', Fac(_), Fac(_)) => true
    case _ => false
  }

  /** BadOperandException is raised exactly on the operand pairs the draft has no
      method for; a defined pair fails only through the calendar; Duration + Duration
      and Factor · Duration commute. */
  lemma OperatorTable(op: char, left: Operand, right: Operand)
    requires op in {'+', '-', '*'}
    ensures Apply(op, left, right).Failure? && Apply(op, left, right).error.BadOperandDraft?
      <==> !Defined(op, left, right)
    ensures Defined(op, left, right) && Apply(op, left, right).Failure? ==>
      Apply(op, left, right).error in {ValueErr, Overflow} && (left.Dt? || right.Dt?)
    ensures op in {'+', '*'} && !left.Dt? && !right.Dt? ==> Apply(op, left, right) == Apply(op, right, left)
  {
    if op == '+' && left.Dur? && right.Dur? {
      assert Total(left.parts) + Total(right.parts) == Total(right.parts) + Total(left.parts);
    }
  }

  // ---- the parser

  /** The tokens the draft parser reads: an operator character or an operand. */
  datatype Token = OpTok(op: char) | Val(v: Operand)

  /** The tree the parser builds: an operand, or an operator token carrying its two
      operands. */
  datatype Tree = Atom(v: Operand) | Node(op: char, left: Tree, right: Tree)

  predicate IsDuration(t: Token) {
    t.Val? && t.v.Dur?
  }

  /** The end of the run of duration tokens that starts at s. */
  function DurationRun(toks: seq<Token>, s: nat): (e: nat)
    requires s <= |toks|
    ensures s <= e <= |toks| && (e < |toks| ==> !IsDuration(toks[e]))
    ensures forall k :: s <= k < e ==> IsDuration(toks[k])
    decreases |toks| - s
  {
    if s < |toks| && IsDuration(toks[s]) then DurationRun(toks, s + 1) else s
  }

  function DurationsOf(toks: seq<Token>): seq<Parts>
    requires forall k :: 0 <= k < |toks| ==> IsDuration(toks[k])
  {
    if |toks| == 0 then []
    else
      assert IsDuration(toks[|toks| - 1]);
      DurationsOf(toks[..|toks| - 1]) + [toks[|toks| - 1].v.parts]
  }

  /** `parse_factor(start, len(tokens))`: a parenthesised expression; the sum of a
      run of durations; a datetime, combined with the next token when that is one
      too; or a factor. Anything else fails the parser's asserts, and reading past
      the last token is an IndexError. */
  function ParseFactor(toks: seq<Token>, start: nat): (r: Result<(Tree, nat), Error>)
    requires start <= |toks|
    ensures r.Success? ==> start < r.value.1 <= |toks|
    ensures start == |toks| ==> r == Failure(IndexErr)
    decreases |toks| - start, 0
  {
    if start == |toks| then Failure(IndexErr)
    else
      match toks[start]
      case OpTok(c) =>
        if c != '(' then Failure(AssertionErr)
        else
          var pe :- ParseExpr(toks, start + 1);
          var (e, e_end) := pe;
          if e_end == |toks| then Failure(IndexErr)
          else if toks[e_end] != OpTok(')') then Failure(AssertionErr)
          else Success((e, e_end + 1))
      case Val(Dur(_)) =>
        var s := DurationRun(toks, start);
        Success((Atom(Dur(SumDurations(DurationsOf(toks[start..s])))), s))
      case Val(Dt(a)) =>
        if start + 1 < |toks| && toks[start + 1].Val? && toks[start + 1].v.Dt? then
          var c :- CombineStamps(a, toks[start + 1].v.stamp);
          Success((Atom(Dt(c)), start + 2))
        else Success((Atom(Dt(a)), start + 1))
      case Val(Fac(x)) => Success((Atom(Fac(x)), start + 1))
  }

  /** `parse_term`: a factor, and at most one `* factor` after it. */
  function ParseTerm(toks: seq<Token>, start: nat): (r: Result<(Tree, nat), Error>)
    requires start <= |toks|
    ensures r.Success? ==> start < r.value.1 <= |toks|
    decreases |toks| - start, 1
  {
    var pf :- ParseFactor(toks, start);
    var (f, f_end) := pf;
    if f_end == |toks| || toks[f_end] != OpTok('*') then Success((f, f_end))
    else
      var pt :- ParseFactor(toks, f_end + 1);
      Success((Node('*', f, pt.0), pt.1))
  }

  /** `parse_expr`: a term, then `+` or `-` and a whole expression to its right. */
  function ParseExpr(toks: seq<Token>, start: nat): (r: Result<(Tree, nat), Error>)
    requires start <= |toks|
    ensures r.Success? ==> start < r.value.1 <= |toks|
    decreases |toks| - start, 2
  {
    var pt :- ParseTerm(toks, start);
    var (t, t_end) := pt;
    if t_end == |toks| || !(toks[t_end] == OpTok('+') || toks[t_end] == OpTok('-')) then Success((t, t_end))
    else
      var pe :- ParseExpr(toks, t_end + 1);
      Success((Node(toks[t_end].op, t, pe.0), pe.1))
  }

  /** `Parser.parse`: an expression that takes every token; ExtraDataException at
      the first token left over. */
  function Parse(toks: seq<Token>): (r: Result<Tree, Error>)
    ensures |toks| == 0 ==> r == Failure(IndexErr)
    ensures ParseExpr(toks, 0).Success? ==>
      if ParseExpr(toks, 0).value.1 == |toks| then r == Success(ParseExpr(toks, 0).value.0)
      else r == Failure(ExtraData(ParseExpr(toks, 0).value.1))
    ensures ParseExpr(toks, 0).Failure? ==> r == Failure(ParseExpr(toks, 0).error)
  {
    var pe :- ParseExpr(toks, 0);
    if pe.1 != |toks| then Failure(ExtraData(pe.1)) else Success(pe.0)
  }

  /** `Operator.apply`, and `main`'s applying it only to an operator tree: the
      left operand first, then the right, then the operator. */
  function Evaluate(t: Tree): (r: Result<Operand, Error>)
    ensures t.Atom? ==> r == Success(t.v)
  {
    match t
    case Atom(v) => Success(v)
    case Node(op, l, rt) =>
      var x :- Evaluate(l);
      var y :- Evaluate(rt);
      Apply(op, x, y)
  }

  // ---- properties of the parser

  /** `f0 op1 f1 op2 f2 …` as tokens, with factors as the operands. */
  function Chain(first: int, steps: seq<(char, int)>): seq<Token>
    decreases |steps|
  {
    if |steps| == 0 then [Val(Fac(first))]
    else [Val(Fac(first)), OpTok(steps[0].0)] + Chain(steps[0].1, steps[1..])
  }

  /** The right-leaning tree: `f0 op1 (f1 op2 (f2 …))`. */
  function RightAssoc(first: int, steps: seq<(char, int)>): Tree
    decreases |steps|
  {
    if |steps| == 0 then Atom(Fac(first))
    else Node(steps[0].0, Atom(Fac(first)), RightAssoc(steps[0].1, steps[1..]))
  }

  predicate AdditiveOps(steps: seq<(char, int)>) {
    forall k :: 0 <= k < |steps| ==> steps[k].0 in {'+', '-'}
  }

  /** A chain of `+` and `-` groups to the right: `a - b - c` is `a - (b - c)`. */
  lemma {:induction false} ChainGroupsRight(toks: seq<Token>, start: nat, first: int, steps: seq<(char, int)>)
    requires start <= |toks| && toks[start..] == Chain(first, steps) && AdditiveOps(steps)
    ensures ParseExpr(toks, start) == Success((RightAssoc(first, steps), |toks|))
    decreases |steps|
  {
    assert toks[start] == Val(Fac(first));
    assert ParseFactor(toks, start) == Success((Atom(Fac(first)), start + 1));
    if |steps| == 0 {
      assert ParseTerm(toks, start) == Success((Atom(Fac(first)), start + 1));
    } else {
      assert toks[start + 1] == OpTok(steps[0].0);
      assert steps[0].0 in {'+', '-'};
      assert ParseTerm(toks, start) == Success((Atom(Fac(first)), start + 1));
      assert toks[start + 2..] == Chain(steps[0].1, steps[1..]) by {
        assert toks[start + 2..] == toks[start..][2..];
      }
      ChainGroupsRight(toks, start + 2, steps[0].1, steps[1..]);
    }
  }

  /** So `a - b - c` evaluates to `a - b + c`, where timecalc.py gives `a - b - c`. */
  lemma SubtractionChain(a: int, b: int, c: int)
    ensures Parse(Chain(a, [('-', b), ('-', c)])) == Success(RightAssoc(a, [('-', b), ('-', c)]))
    ensures Evaluate(RightAssoc(a, [('-', b), ('-', c)])) == Success(Fac(a - b + c))
  {
    var steps := [('-', b), ('-', c)];
    ChainGroupsRight(Chain(a, steps), 0, a, steps);
    assert steps[1..] == [('-', c)] && steps[1..][1..] == [];
    assert RightAssoc(b, [('-', c)]) == Node('-', Atom(Fac(b)), RightAssoc(c, [])) by {
      assert [('-', c)][1..] == [];
    }
    assert RightAssoc(a, steps) == Node('-', Atom(Fac(a)), Node('-', Atom(Fac(b)), Atom(Fac(c))));
  }

  /** A term takes one `*`: `a * b * c` leaves `* c` over. */
  lemma OneProductPerTerm(a: int, b: int, c: int)
    ensures Parse([Val(Fac(a)), OpTok('*'), Val(Fac(b)), OpTok('*'), Val(Fac(c))]) == Failure(ExtraData(3))
  {
    var toks := [Val(Fac(a)), OpTok('*'), Val(Fac(b)), OpTok('*'), Val(Fac(c))];
    assert ParseFactor(toks, 0) == Success((Atom(Fac(a)), 1));
    assert ParseFactor(toks, 2) == Success((Atom(Fac(b)), 3));
    assert ParseTerm(toks, 0) == Success((Node('*', Atom(Fac(a)), Atom(Fac(b))), 3));
  }

  /** A run of durations parses as one operand, their sum, and a datetime directly
      followed by another is one operand, the two combined. */
  lemma AdjacentOperands(toks: seq<Token>, start: nat)
    requires start < |toks| && toks[start].Val? && !toks[start].v.Fac?
    ensures toks[start].v.Dur? ==>
      var e := DurationRun(toks, start);
      ParseFactor(toks, start) == Success((Atom(Dur(Split(TotalSum(DurationsOf(toks[start..e]))))), e))
    ensures toks[start].v.Dt? && start + 1 < |toks| && toks[start + 1].Val? && toks[start + 1].v.Dt? ==>
      match CombineStamps(toks[start].v.stamp, toks[start + 1].v.stamp)
      case Success(c) => ParseFactor(toks, start) == Success((Atom(Dt(c)), start + 2))
      case Failure(e) => ParseFactor(toks, start) == Failure(e)
  {
  }
}

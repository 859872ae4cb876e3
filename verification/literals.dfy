/** What `value()` of the literal terminals of timecalc.py computes from the
    fields of a token (Number, Unit, DatetimeLiteral, DateLiteral, ISO8601, Date,
    Time), and `Datetime.combine`. The clock reads behind `now` and `today` are
    parameters. */
module Literals {
  import opened Wrappers
  import opened Errors
  import opened Civil
  import opened Text
  import opened Fields
  import opened Breakdown
  import opened Values
  import opened Terminals

  /** The cleaned-up fields of one token, as `tweak_match_dict` leaves them. */
  type Captures = map<string, string>

  /** `int(s)` on a captured field; the patterns only capture digit strings. */
  function ParseInt(s: string): (r: Result<int, Error>)
    ensures r.Success? <==> |s| > 0 && AllDigits(s)
    ensures r.Success? ==> r.value == DigitsValue(s)
    ensures r.Failure? ==> r.error == ValueErr
  {
    if |s| > 0 && AllDigits(s) then Success(DigitsValue(s)) else Failure(ValueErr)
  }

  /** `int(d.get(key, dflt))`; without a default an absent field is `int(None)`. */
  function IntField(d: Captures, key: string, dflt: Option<int>): Result<int, Error> {
    if key in d then ParseInt(d[key])
    else if dflt.Some? then Success(dflt.value)
    else Failure(MalformedToken)
  }

  /** Whether a field, if present, is a digit string `int()` accepts. */
  predicate Readable(d: Captures, key: string) {
    key in d ==> |d[key]| > 0 && AllDigits(d[key])
  }

  /** Whether a field spells v in decimal digits, leading zeros allowed, or is
      absent and v is the default 0. */
  predicate Spells(d: Captures, key: string, v: int) {
    if key in d then |d[key]| > 0 && AllDigits(d[key]) && DigitsValue(d[key]) == v else v == 0
  }

  lemma IntFieldOfSpelling(d: Captures, key: string, v: int)
    requires Spells(d, key, v)
    ensures IntField(d, key, Some(0)) == Success(v)
  {
  }

  lemma IntFieldOfNat(d: Captures, key: string, dflt: Option<int>, n: nat)
    requires key in d && d[key] == NatToString(n)
    ensures IntField(d, key, dflt) == Success(n)
  {
    NatToStringRoundTrip(n);
  }

  // ---- Number

  function IndexOfDot(s: string): (i: nat)
    ensures i <= |s| && (i < |s| ==> s[i] == '.')
    ensures forall k :: 0 <= k < i ==> s[k] != '.'
  {
    if |s| == 0 || s[0] == '.' then 0 else 1 + IndexOfDot(s[1..])
  }

  /** `float(s)` for the shape `-?\d+(\.\d*)?` the Number pattern captures; None
      for any other text. */
  function ParseDecimal(s: string): (r: Option<real>)
    ensures r.Some? ==> |s| > 0 && (s[0] == '-' || IsDigit(s[0]))
  {
    var neg := |s| > 0 && s[0] == '-';
    var body := if neg then s[1..] else s;
    var i := IndexOfDot(body);
    var whole := body[..i];
    var frac := if i < |body| then body[i + 1..] else "";
    if |whole| > 0 && AllDigits(whole) && AllDigits(frac) then
      assert body[0] == whole[0];
      Some(DecimalValue(neg, whole, frac))
    else None
  }

  /** `Number.value()`: `float(self.d['number'])`. */
  function NumberValue(d: Captures): (r: Result<real, Error>)
    ensures r.Success? ==> "number" in d && ParseDecimal(d["number"]) == Some(r.value)
    ensures r.Failure? ==> r.error == (if "number" in d then ValueErr else MalformedToken)
  {
    if "number" !in d then Failure(MalformedToken)
    else
      match ParseDecimal(d["number"])
      case Some(x) => Success(x)
      case None => Failure(ValueErr)
  }

  /** The value of the digits of a + b: those of a shifted past the digits of b. */
  lemma {:induction false} DigitsValueConcat(a: string, b: string)
    requires AllDigits(a) && AllDigits(b)
    ensures AllDigits(a + b) && DigitsValue(a + b) == DigitsValue(a) * Pow10(|b|) + DigitsValue(b)
    decreases |b|
  {
    if |b| > 0 {
      var b' := b[..|b| - 1];
      var c := b[|b| - 1];
      assert (a + b)[..|a + b| - 1] == a + b';
      assert (a + b)[|a + b| - 1] == c;
      DigitsValueConcat(a, b');
      assert DigitsValue(a + b) == DigitsValue(a + b') * 10 + DigitValue(c);
      assert DigitsValue(b) == DigitsValue(b') * 10 + DigitValue(c);
      assert Pow10(|b|) == 10 * Pow10(|b'|);
      ShiftPlace(DigitsValue(a), Pow10(|b'|), DigitsValue(b'), DigitValue(c));
    } else {
      assert a + b == a;
    }
  }

  lemma ShiftPlace(x: int, p: int, y: int, c: int)
    ensures (x * p + y) * 10 + c == x * (10 * p) + (y * 10 + c)
  {
  }

  /** The first dot of w + rest is the one rest starts with, when w has none. */
  lemma {:induction false} IndexOfDotAfter(w: string, rest: string)
    requires forall k :: 0 <= k < |w| ==> w[k] != '.'
    requires |rest| == 0 || rest[0] == '.'
    ensures IndexOfDot(w + rest) == |w|
    decreases |w|
  {
    if |w| > 0 {
      assert (w + rest)[1..] == w[1..] + rest;
      IndexOfDotAfter(w[1..], rest);
    } else {
      assert w + rest == rest;
    }
  }

  /** The text of a decimal: an optional minus, the whole digits, and a dot
      followed by the fractional digits when there is one. */
  function DecimalText(neg: bool, whole: string, dot: bool, frac: string): string {
    (if neg then "-" else "") + whole + (if dot then "." + frac else "")
  }

  /** `float()` of a decimal literal `-?whole(.frac)?` is the exact decimal its
      digits spell: whole + frac / 10^|frac|, negated under a minus sign. */
  lemma NumberOfDecimal(neg: bool, whole: string, dot: bool, frac: string)
    requires |whole| > 0 && AllDigits(whole) && AllDigits(frac) && (dot || |frac| == 0)
    ensures NumberValue(map["number" := DecimalText(neg, whole, dot, frac)]) == Success(DecimalValue(neg, whole, frac))
  {
    ParseDecimalOfText(neg, whole, dot, frac);
  }

  lemma ParseDecimalOfText(neg: bool, whole: string, dot: bool, frac: string)
    requires |whole| > 0 && AllDigits(whole) && AllDigits(frac) && (dot || |frac| == 0)
    ensures ParseDecimal(DecimalText(neg, whole, dot, frac)) == Some(DecimalValue(neg, whole, frac))
  {
    var s := DecimalText(neg, whole, dot, frac);
    var tail := if dot then "." + frac else "";
    var body := whole + tail;
    assert s == (if neg then "-" else "") + body;
    assert (if neg then s[1..] else s) == body;
    assert |s| > 0 && (s[0] == '-' <==> neg) by {
      assert IsDigit(whole[0]) && body[0] == whole[0];
    }
    forall k | 0 <= k < |whole| ensures whole[k] != '.' {
      assert IsDigit(whole[k]);
    }
    IndexOfDotAfter(whole, tail);
    assert body[..|whole|] == whole;
    assert (if |whole| < |body| then body[|whole| + 1..] else "") == frac;
  }

  /** The decimal times 10^|frac| is the integer all its digits spell, signed:
      reading the point is moving it |frac| places. */
  lemma DecimalScaled(neg: bool, whole: string, frac: string, v: real, p: nat)
    requires AllDigits(whole) && AllDigits(frac)
    requires v == DecimalValue(neg, whole, frac) && p == Pow10(|frac|)
    ensures AllDigits(whole + frac)
    ensures v * p as real == (if neg then -1.0 else 1.0) * DigitsValue(whole + frac) as real
  {
    DigitsValueConcat(whole, frac);
    ScaledDecimal(neg, v, DigitsValue(whole + frac), DigitsValue(whole), DigitsValue(frac), p);
  }

  /** Moving the point of a + b/p back by p: the arithmetic of DecimalScaled. */
  lemma ScaledDecimal(neg: bool, v: real, d: int, a: int, b: int, p: int)
    requires p > 0 && d == a * p + b
    requires v == (if neg then -(a as real + b as real / p as real) else a as real + b as real / p as real)
    ensures v * p as real == (if neg then -1.0 else 1.0) * d as real
  {
    var m := a as real + b as real / p as real;
    assert m * p as real == a as real * p as real + b as real;
    assert d as real == a as real * p as real + b as real;
  }

  /** `0.5 day` of the examples: the Number token's text reads as one half. */
  lemma NumberHalf()
    ensures NumberValue(map["number" := "0.5"]) == Success(0.5)
  {
    NumberOfDecimal(false, "0", true, "5");
    assert DecimalText(false, "0", true, "5") == "0.5";
    OneDigit('0');
    OneDigit('5');
    assert Pow10(|"5"|) == 10;
    DecimalOfParts(false, "0", "5", 0, 5, 10);
  }

  /** `42.53` of the examples. */
  lemma NumberFortyTwo()
    ensures NumberValue(map["number" := "42.53"]) == Success(42.53)
  {
    NumberOfDecimal(false, "42", true, "53");
    assert DecimalText(false, "42", true, "53") == "42.53";
    TwoDigits('4', '2');
    TwoDigits('5', '3');
    assert Pow10(|"53"|) == 100;
    DecimalOfParts(false, "42", "53", 42, 53, 100);
  }

  lemma DecimalOfParts(neg: bool, whole: string, frac: string, a: nat, b: nat, p: nat)
    requires AllDigits(whole) && AllDigits(frac) && p > 0
    requires DigitsValue(whole) == a && DigitsValue(frac) == b && Pow10(|frac|) == p
    ensures DecimalValue(neg, whole, frac) == (if neg then -1.0 else 1.0) * (a as real + b as real / p as real)
  {
  }

  /** `float(str(n)) == n` for every integer n. */
  lemma NumberOfInt(n: int)
    ensures NumberValue(map["number" := IntToString(n)]) == Success(n as real)
  {
    var s := IntToString(n);
    var body := if n < 0 then s[1..] else s;
    assert IndexOfDot(body) == |body|;
    assert body[..|body|] == body;
  }

  // ---- Unit

  /** `Unit.value()`: the single key of the token's fields, which names its unit. */
  function UnitValue(d: Captures): (r: Result<Unit, Error>)
    ensures r.Success? ==> UnitName(r.value) in d
    ensures r.Failure? ==> r.error == MalformedToken && forall u :: UnitName(u) !in d
  {
    if "milliseconds" in d then Success(Milliseconds)
    else if "seconds" in d then Success(Seconds)
    else if "minutes" in d then Success(Minutes)
    else if "hours" in d then Success(Hours)
    else if "days" in d then Success(Days)
    else if "weeks" in d then Success(Weeks)
    else if "months" in d then Success(Months)
    else if "years" in d then Success(Years)
    else Failure(MalformedToken)
  }

  /** A token whose only field is a unit's name has that unit as its value. */
  lemma UnitValueOfName(u: Unit, w: string)
    ensures UnitValue(map[UnitName(u) := w]) == Success(u)
  {
  }

  /** The fields of a Unit token are one group named after the unit, so its value
      is that unit; the pattern lists the groups from milliseconds up to years. */
  lemma UnitValueOfSpelling(k: UnitIndex, w: string)
    ensures UnitValue(Tweak(UnitGroupList(k, w))) == Success(Units[7 - k])
  {
    var g := UnitGroupList(k, w);
    var d := Tweak(g);
    forall i | 0 <= i < |g|
      ensures StripIndex(g[i].0) == g[i].0
    {
      assert g[i].0 == UnitGroups[i];
    }
    assert d == map[UnitGroups[k] := w] by {
      assert UnitGroups[k] in d;
      assert forall key :: key in d ==> key == UnitGroups[k];
    }
    assert UnitGroups[k] == UnitName(Units[7 - k]);
    UnitValueOfName(Units[7 - k], w);
  }

  // ---- Time

  /** The 24-hour clock hour of an hour written with an optional am/pm suffix. */
  function ClockHour(h: int, ampm: Option<string>): int {
    if ampm == Some("am") && h == 12 then 0
    else if ampm == Some("pm") && h != 12 then h + 12
    else h
  }

  /** The 12-hour clock: hours 1..12 with am name the morning, with pm the
      afternoon, and 12am is midnight. */
  lemma ClockHourRange(h: int, pm: bool)
    requires 1 <= h <= 12
    ensures 0 <= ClockHour(h, Some(if pm then "pm" else "am")) < 24
    ensures ClockHour(h, Some(if pm then "pm" else "am")) < 12 <==> !pm
    ensures ClockHour(h, Some(if pm then "pm" else "am")) % 12 == h % 12
  {
  }

  /** `Time.value()`; an impossible hour, minute or second raises ValueError. */
  function TimeValue(d: Captures): (r: Result<Time, Error>)
    ensures r.Success? ==> ValidTime(r.value) && r.value.micro == 0
    ensures r.Failure? ==> r.error == ValueErr
  {
    var h :- IntField(d, "hour", Some(0));
    var m :- IntField(d, "minute", Some(0));
    var s :- IntField(d, "second", Some(0));
    MakeTime(ClockHour(h, Get(d, "ampm")), m, s)
  }

  /** A Time token whose fields spell hour h, minute m and second s (each absent
      field 0) reads as h:m:s, with h taken on the 12-hour clock when the token
      has am or pm, and raises ValueError when that is no time of day. */
  lemma TimeValueOfFields(d: Captures, h: int, m: int, s: int)
    requires Spells(d, "hour", h) && Spells(d, "minute", m) && Spells(d, "second", s)
    ensures
      var t := Time(ClockHour(h, Get(d, "ampm")), m, s, 0);
      TimeValue(d) == if ValidTime(t) then Success(t) else Failure(ValueErr)
  {
  }

  /** Every time of day to the second, written on the 12-hour clock with any digit
      spelling of its fields (a zero minute or second may be left out), reads back
      as itself. */
  lemma TimeValueTwelveHour(d: Captures, t: Time)
    requires ValidTime(t) && t.micro == 0
    requires Spells(d, "hour", if t.hour % 12 == 0 then 12 else t.hour % 12)
    requires Spells(d, "minute", t.minute) && Spells(d, "second", t.second)
    requires Get(d, "ampm") == Some(if t.hour < 12 then "am" else "pm")
    ensures TimeValue(d) == Success(t)
  {
    TimeValueOfFields(d, if t.hour % 12 == 0 then 12 else t.hour % 12, t.minute, t.second);
  }

  /** Without am or pm the hour is read on the 24-hour clock. */
  lemma TimeValueTwentyFourHour(d: Captures, t: Time)
    requires ValidTime(t) && t.micro == 0 && "ampm" !in d
    requires Spells(d, "hour", t.hour) && Spells(d, "minute", t.minute) && Spells(d, "second", t.second)
    ensures TimeValue(d) == Success(t)
  {
    TimeValueOfFields(d, t.hour, t.minute, t.second);
  }

  lemma OneDigit(c: char)
    requires IsDigit(c)
    ensures DigitsValue([c]) == DigitValue(c)
  {
    assert [c][..0] == [];
  }

  lemma TwoDigits(a: char, b: char)
    requires IsDigit(a) && IsDigit(b)
    ensures DigitsValue([a, b]) == 10 * DigitValue(a) + DigitValue(b)
  {
    assert [a, b][..1] == [a];
    OneDigit(a);
  }

  /** The fields of `14:30`, `3am`, `2:15pm`, `12am` and `13pm`, as the Time
      pattern captures them, and what they read as. */
  lemma TimeExamples()
    ensures TimeValue(map["hour" := "14", "_timesep" := ":", "minute" := "30"]) == Success(Time(14, 30, 0, 0))
    ensures TimeValue(map["hour" := "3", "ampm" := "am"]) == Success(Time(3, 0, 0, 0))
    ensures TimeValue(map["hour" := "2", "_timesep" := ":", "minute" := "15", "ampm" := "pm"]) == Success(Time(14, 15, 0, 0))
    ensures TimeValue(map["hour" := "12", "ampm" := "am"]) == Success(Midnight)
    ensures TimeValue(map["hour" := "13", "ampm" := "pm"]) == Failure(ValueErr)
  {
    TwoDigits('1', '4');
    TwoDigits('3', '0');
    OneDigit('3');
    OneDigit('2');
    TwoDigits('1', '5');
    TwoDigits('1', '2');
    TwoDigits('1', '3');
    TimeValueOfFields(map["hour" := "14", "_timesep" := ":", "minute" := "30"], 14, 30, 0);
    TimeValueOfFields(map["hour" := "3", "ampm" := "am"], 3, 0, 0);
    TimeValueOfFields(map["hour" := "2", "_timesep" := ":", "minute" := "15", "ampm" := "pm"], 2, 15, 0);
    TimeValueOfFields(map["hour" := "12", "ampm" := "am"], 12, 0, 0);
    TimeValueOfFields(map["hour" := "13", "ampm" := "pm"], 13, 0, 0);
  }

  // ---- Date

  /** `Date.value()`: `datetime.date(y, m, d)`, a ValueError on an impossible date. */
  function DateValue(d: Captures): (r: Result<Date, Error>)
    ensures r.Success? ==> ValidDate(r.value)
    ensures r.Failure? ==> r.error in {ValueErr, MalformedToken}
  {
    var y :- IntField(d, "year", None);
    var m :- IntField(d, "month", None);
    var day :- IntField(d, "day", None);
    MakeDate(y, m, day)
  }

  /** The fields the Date pattern captures for a written-out date. */
  function DateFields(y: nat, m: nat, day: nat, sep: string): Captures {
    map["year" := NatToString(y), "_datesep" := sep, "month" := NatToString(m), "day" := NatToString(day)]
  }

  /** A written date reads back as itself when it exists, and as a plain ValueError
      (not InvalidDate) when it does not. */
  lemma DateValueOfFields(y: nat, m: nat, day: nat, sep: string)
    ensures ValidDate(Date(y, m, day)) ==> DateValue(DateFields(y, m, day, sep)) == Success(Date(y, m, day))
    ensures !ValidDate(Date(y, m, day)) ==> DateValue(DateFields(y, m, day, sep)) == Failure(ValueErr)
  {
    var d := DateFields(y, m, day, sep);
    IntFieldOfNat(d, "year", None, y);
    IntFieldOfNat(d, "month", None, m);
    IntFieldOfNat(d, "day", None, day);
  }

  // ---- ISO8601

  /** The ordinal of the Monday of the Monday-to-Sunday week holding ordinal o. */
  function MondayOrdinal(o: int): int {
    o - (o - 1) % 7
  }

  /** The ISO weekday read off the ordinal: day 1 of the calendar was a Monday. */
  lemma IsoWeekdayOrdinal(d: Date)
    requires ValidDate(d)
    ensures IsoWeekday(d) == (Ordinal(d) - 1) % 7 + 1
  {
    var w := IsoWeekday(d);
    var q := (Ordinal(d) - w) / 7;
    DivModUnique(Ordinal(d) - 1, 7, q, w - 1);
  }

  lemma MondayOfOrdinal(d: Date)
    requires ValidDate(d)
    ensures MondayOrdinal(Ordinal(d)) == Ordinal(d) - IsoWeekday(d) + 1
    ensures (MondayOrdinal(Ordinal(d)) - 1) % 7 == 0
  {
    IsoWeekdayOrdinal(d);
    var o := Ordinal(d);
    DivModUnique(MondayOrdinal(o) - 1, 7, (o - 1) / 7, 0);
  }


  /** The Monday on or before a date. */
  function MondayOf(d: Date): (r: Result<Date, Error>)
    requires ValidDate(d)
    ensures r.Success? ==> ValidDate(r.value) && IsoWeekday(r.value) == 1
    ensures r.Success? ==> 0 <= Ordinal(d) - Ordinal(r.value) < 7
    ensures r.Success? ==> Ordinal(r.value) == MondayOrdinal(Ordinal(d))
    ensures r.Failure? ==> r.error == Overflow
  {
    MondayOfOrdinal(d);
    var w := IsoWeekday(d);
    var r := AddDays(d, 1 - w);
    assert r.Success? ==> IsoWeekday(r.value) == 1 by {
      if r.Success? {
        WeekdayOf(r.value, 1);
      }
    }
    r
  }

  /** An ISO 8601 week date: week 1 is the week holding 4 January, and the weekday
      counts from Monday = 1. Weeks and weekdays outside 1..53 and 1..7 are not
      rejected but counted on from the Monday of week 1. */
  function IsoWeekDate(y: int, week: int, weekday: int): (r: Result<Date, Error>)
    ensures r.Success? ==> ValidDate(r.value)
    ensures r.Success? ==>
      && ValidDate(Date(y, 1, 4))
      && Ordinal(r.value) == MondayOrdinal(Ordinal(Date(y, 1, 4))) + (week - 1) * 7 + weekday - 1
    ensures r.Success? && 1 <= weekday <= 7 ==> IsoWeekday(r.value) == weekday
    ensures r.Failure? ==> r.error in {ValueErr, Overflow}
  {
    var jan4 :- MakeDate(y, 1, 4);
    var monday :- MondayOf(jan4);
    var r := AddDays(monday, (week - 1) * 7 + weekday - 1);
    assert r.Success? && 1 <= weekday <= 7 ==> IsoWeekday(r.value) == weekday by {
      if r.Success? && 1 <= weekday <= 7 {
        WeeksFromMonday(monday, r.value, week - 1, weekday);
      }
    }
    r
  }

  /** The week date as the program computes it: the day (week - 1) * 7 days after
      1 January, moved within its Monday-to-Sunday week to the written weekday.
      Week 1 is thus the week holding 1 January, so in a year that starts on a
      Friday, Saturday or Sunday every week is one week early. */
  function IsoWeekDateAsWritten(y: int, week: int, weekday: int): (r: Result<Date, Error>)
    ensures r.Success? <==>
      && ValidDate(Date(y, 1, 1))
      && var o := Ordinal(Date(y, 1, 1)) + (week - 1) * 7;
         1 <= o <= MaxOrdinal && 1 <= MondayOrdinal(o) + weekday - 1 <= MaxOrdinal
    ensures r.Success? ==>
      && ValidDate(Date(y, 1, 1)) && ValidDate(r.value)
      && Ordinal(r.value) == MondayOrdinal(Ordinal(Date(y, 1, 1)) + (week - 1) * 7) + weekday - 1
    ensures r.Success? && 1 <= weekday <= 7 ==> IsoWeekday(r.value) == weekday
    ensures r.Failure? ==> r.error in {ValueErr, Overflow}
  {
    var jan1 :- MakeDate(y, 1, 1);
    var d :- AddDays(jan1, (week - 1) * 7);
    var r := AddDays(d, weekday - IsoWeekday(d));
    ToWeekday(d, weekday, r);
    assert r.Success? && 1 <= weekday <= 7 ==> IsoWeekday(r.value) == weekday by {
      if r.Success? && 1 <= weekday <= 7 {
        WeekdayReached(d, r.value, weekday);
      }
    }
    r
  }

  /** `d + timedelta(days=weekday - d.isoweekday())` lands weekday - 1 days after
      the Monday of d's week. */
  lemma ToWeekday(d: Date, weekday: int, r: Result<Date, Error>)
    requires ValidDate(d) && r == AddDays(d, weekday - IsoWeekday(d))
    ensures r.Success? <==> 1 <= MondayOrdinal(Ordinal(d)) + weekday - 1 <= MaxOrdinal
    ensures r.Success? ==> Ordinal(r.value) == MondayOrdinal(Ordinal(d)) + weekday - 1
  {
    MondayOfOrdinal(d);
  }

  /** ... on the day of d's week with that weekday, when it is one of 1..7. */
  lemma WeekdayReached(d: Date, e: Date, weekday: int)
    requires ValidDate(d) && ValidDate(e) && 1 <= weekday <= 7
    requires Ordinal(e) == Ordinal(d) + (weekday - IsoWeekday(d))
    ensures IsoWeekday(e) == weekday
  {
    MondayOfOrdinal(d);
    LandsOnWeekday(e, MondayOrdinal(Ordinal(d)), weekday);
  }

  lemma LandsOnWeekday(e: Date, monday: int, weekday: int)
    requires ValidDate(e) && 1 <= weekday <= 7 && (monday - 1) % 7 == 0
    requires Ordinal(e) == monday + weekday - 1
    ensures IsoWeekday(e) == weekday
  {
    DivModUnique(Ordinal(e) - weekday, 7, (monday - 1) / 7, 0);
    WeekdayOf(e, weekday);
  }

  lemma Ordinals2016(y: int)
    requires y == 2016
    ensures Ordinal(Date(y, 1, 1)) == 735964 && IsoWeekday(Date(y, 1, 1)) == 5
    ensures Ordinal(Date(y, 1, 4)) == 735967 && IsoWeekday(Date(y, 1, 4)) == 1
    ensures Ordinal(Date(y - 1, 12, 28)) == 735960
  {
    StartOf2016(y);
    assert Ordinal(Date(y, 1, 4)) == 735967;
    assert (735964 - 5) % 7 == 0 && (735967 - 1) % 7 == 0;
    WeekdayOf(Date(y, 1, 1), 5);
    WeekdayOf(Date(y, 1, 4), 1);
    EndOf2015(y - 1);
  }

  lemma StartOf2016(y: int)
    requires y == 2016
    ensures DaysBeforeYear(y) == 735963
  {
    DaysBeforeYearClosed(y);
  }

  lemma EndOf2015(y: int)
    requires y == 2015
    ensures Ordinal(Date(y, 12, 28)) == 735960
  {
    DaysBeforeYearClosed(y);
    assert !IsLeap(y);
    assert DaysBeforeMonth(y, 3) == 59;
    assert DaysBeforeMonth(y, 6) == 151;
    assert DaysBeforeMonth(y, 9) == 243;
    assert DaysBeforeMonth(y, 12) == 334;
  }

  lemma AsWritten2016(y: int)
    requires y == 2016
    ensures IsoWeekDateAsWritten(y, 1, 1) == Success(Date(y - 1, 12, 28))
  {
    Ordinals2016(y);
    FromOrdinalOfOrdinal(Date(y, 1, 1));
    FromOrdinalOfOrdinal(Date(y - 1, 12, 28));
  }

  lemma Corrected2016(y: int)
    requires y == 2016
    ensures IsoWeekDate(y, 1, 1) == Success(Date(y, 1, 4))
  {
    Ordinals2016(y);
    FromOrdinalOfOrdinal(Date(y, 1, 4));
  }

  /** 1 January 2016 was a Friday, so ISO week 1 of 2016 began on 4 January; the
      program places "2016-W01-1" on 28 December 2015 instead. */
  lemma WeekDateCounterexample()
    ensures IsoWeekDateAsWritten(2016, 1, 1) == Success(Date(2015, 12, 28))
    ensures IsoWeekDate(2016, 1, 1) == Success(Date(2016, 1, 4))
  {
    AsWritten2016(2016);
    Corrected2016(2016);
  }

  /** Week 1 of every year from 1 to 9999 starts inside the calendar. */
  lemma WeekOneMondayExists(y: int)
    requires MinYear <= y <= MaxYear
    ensures MondayOf(Date(y, 1, 4)).Success?
  {
    var jan4 := Date(y, 1, 4);
    OrdinalRange(jan4);
    if y == 1 {
      assert Ordinal(jan4) == 4;
      WeekdayOf(jan4, 4);
    } else {
      DaysBeforeYearMonotone(1, y);
    }
  }

  /** The Monday of ISO 8601 week 1 of year y. */
  function WeekOneMonday(y: int): (r: Date)
    requires MinYear <= y <= MaxYear
    ensures MondayOf(Date(y, 1, 4)) == Success(r)
  {
    WeekOneMondayExists(y);
    MondayOf(Date(y, 1, 4)).value
  }

  lemma IsoWeekDateFromMonday(y: int, week: int, weekday: int)
    requires MinYear <= y <= MaxYear
    ensures IsoWeekDate(y, week, weekday) == AddDays(WeekOneMonday(y), (week - 1) * 7 + weekday - 1)
  {
    assert MakeDate(y, 1, 4) == Success(Date(y, 1, 4));
    assert MondayOf(Date(y, 1, 4)) == Success(WeekOneMonday(y));
  }

  lemma WeeksAndDays(k: int, a: int, b: int, w: int)
    requires 1 <= w <= 7 && k - (w - 1) == 7 * (b - a)
    ensures (k / 7) * 7 + w - 1 == k
  {
    DivModUnique(k, 7, b - a, w - 1);
  }

  /** Whole weeks from a Monday, then the weekday's offset, reach any later day. */
  lemma WeeksFromMondayReach(monday: Date, dt: Date)
    requires ValidDate(monday) && ValidDate(dt) && IsoWeekday(monday) == 1
    requires Ordinal(monday) <= Ordinal(dt)
    ensures AddDays(monday, ((Ordinal(dt) - Ordinal(monday)) / 7) * 7 + IsoWeekday(dt) - 1) == Success(dt)
  {
    var k := Ordinal(dt) - Ordinal(monday);
    var w := IsoWeekday(dt);
    assert (k / 7) * 7 + w - 1 == k by {
      var a := (Ordinal(monday) - 1) / 7;
      var b := (Ordinal(dt) - w) / 7;
      DivModUnique(Ordinal(monday) - 1, 7, a, 0);
      DivModUnique(Ordinal(dt) - w, 7, b, 0);
      WeeksAndDays(k, a, b, w);
    }
    OrdinalRange(dt);
    FromOrdinalOfOrdinal(dt);
  }

  /** Every day on or after the Monday of week 1 of year y has a week date in
      year y: its week counted from that Monday and its ISO weekday. */
  lemma IsoWeekDateRoundTrip(y: int, dt: Date)
    requires ValidDate(dt) && MinYear <= y <= MaxYear
    requires Ordinal(WeekOneMonday(y)) <= Ordinal(dt)
    ensures
      var k := Ordinal(dt) - Ordinal(WeekOneMonday(y));
      IsoWeekDate(y, k / 7 + 1, IsoWeekday(dt)) == Success(dt)
  {
    var monday := WeekOneMonday(y);
    var n := (Ordinal(dt) - Ordinal(monday)) / 7;
    IsoWeekDateFromMonday(y, n + 1, IsoWeekday(dt));
    WeeksFromMondayReach(monday, dt);
    assert (n + 1 - 1) * 7 == n * 7;
  }

  /** The date part of an ISO8601 token: a calendar date, an ordinal date (day of
      the year) or a week date. */
  function IsoDate(d: Captures): (r: Result<Date, Error>)
    ensures r.Success? ==> ValidDate(r.value)
    ensures r.Failure? ==> r.error in {ValueErr, Overflow, MalformedToken}
  {
    var year :- IntField(d, "year", Some(0));
    if "month" in d then
      var month :- IntField(d, "month", Some(0));
      var day :- IntField(d, "day", Some(0));
      MakeDate(year, month, day)
    else if "yearday" in d then
      var yearday :- IntField(d, "yearday", Some(0));
      var jan1 :- MakeDate(year, 1, 1);
      AddDays(jan1, yearday - 1)
    else if "week" in d then
      var week :- IntField(d, "week", Some(0));
      var weekday :- IntField(d, "weekday", None);
      IsoWeekDateAsWritten(year, week, weekday)
    else Failure(MalformedToken)
  }

  /** `ISO8601._value()`: the date combined with the time, 00:00:00 by default. */
  function IsoInstant(d: Captures): (r: Result<DateTime, Error>)
    ensures r.Success? ==> Valid(r.value) && r.value.time.micro == 0
    ensures r.Failure? ==> r.error in {ValueErr, Overflow, MalformedToken}
  {
    var date :- IsoDate(d);
    var hour :- IntField(d, "hour", Some(0));
    var minute :- IntField(d, "minute", Some(0));
    var second :- IntField(d, "second", Some(0));
    var time :- MakeTime(hour, minute, second);
    Success(DateTime(date, time))
  }

  /** `ISO8601.value()`: a ValueError becomes InvalidDate at the token; an
      OverflowError of the date arithmetic passes through. */
  function IsoValue(d: Captures, tokenPos: nat): (r: Result<DateTime, Error>)
    ensures r.Success? ==> Valid(r.value)
    ensures r.Failure? ==> r.error in {InvalidDate(tokenPos), Overflow, MalformedToken}
  {
    match IsoInstant(d)
    case Success(dt) => Success(dt)
    case Failure(e) => Failure(if e == ValueErr then InvalidDate(tokenPos) else e)
  }

  /** An ISO calendar date and time, with any zero padding and with the seconds or
      the whole time left out, decodes to that instant when it exists and to
      InvalidDate at the token when it does not. */
  lemma IsoCalendarValue(d: Captures, tokenPos: nat, y: int, m: int, day: int, h: int, mi: int, s: int)
    requires "month" in d
    requires Spells(d, "year", y) && Spells(d, "month", m) && Spells(d, "day", day)
    requires Spells(d, "hour", h) && Spells(d, "minute", mi) && Spells(d, "second", s)
    ensures
      var dt := DateTime(Date(y, m, day), Time(h, mi, s, 0));
      IsoValue(d, tokenPos) == if Valid(dt) then Success(dt) else Failure(InvalidDate(tokenPos))
  {
    IntFieldOfSpelling(d, "year", y);
    IntFieldOfSpelling(d, "month", m);
    IntFieldOfSpelling(d, "day", day);
    IntFieldOfSpelling(d, "hour", h);
    IntFieldOfSpelling(d, "minute", mi);
    IntFieldOfSpelling(d, "second", s);
  }

  /** An ordinal date names the day that many days into its year, whatever the
      padding of its three digits. */
  lemma IsoOrdinalDate(d: Captures, dt: Date)
    requires ValidDate(dt) && "month" !in d && "yearday" in d
    requires Spells(d, "year", dt.year) && Spells(d, "yearday", Ordinal(dt) - Ordinal(Date(dt.year, 1, 1)) + 1)
    ensures IsoDate(d) == Success(dt)
  {
    var jan1 := Date(dt.year, 1, 1);
    var n := Ordinal(dt) - Ordinal(jan1) + 1;
    IsoYearDay(d, dt.year, n);
    OrdinalRange(dt);
    var r := AddDays(jan1, n - 1);
    assert r.Success? && Ordinal(r.value) == Ordinal(dt);
    OrdinalInjective(r.value, dt);
  }

  /** `date(year, 1, 1) + timedelta(days=yearday - 1)` */
  lemma IsoYearDay(d: Captures, y: int, n: int)
    requires "month" !in d && "yearday" in d && Spells(d, "year", y) && Spells(d, "yearday", n)
    requires ValidDate(Date(y, 1, 1))
    ensures IsoDate(d) == AddDays(Date(y, 1, 1), n - 1)
  {
    IntFieldOfSpelling(d, "year", y);
    IntFieldOfSpelling(d, "yearday", n);
  }

  /** A week date's fields decode by the program's week rule. */
  lemma IsoWeekValue(d: Captures, y: int, week: int, weekday: int)
    requires "month" !in d && "yearday" !in d && "week" in d && "weekday" in d
    requires Spells(d, "year", y) && Spells(d, "week", week) && Spells(d, "weekday", weekday)
    ensures IsoDate(d) == IsoWeekDateAsWritten(y, week, weekday)
  {
    IntFieldOfSpelling(d, "year", y);
    IntFieldOfSpelling(d, "week", week);
  }

  lemma FourDigits(a: char, b: char, c: char, e: char)
    requires IsDigit(a) && IsDigit(b) && IsDigit(c) && IsDigit(e)
    ensures DigitsValue([a, b, c, e]) == 1000 * DigitValue(a) + 100 * DigitValue(b) + 10 * DigitValue(c) + DigitValue(e)
  {
    assert [a, b, c, e][..3] == [a, b, c];
    assert [a, b, c][..2] == [a, b];
    TwoDigits(a, b);
  }

  /** `2015-07-31 01:23` of the examples: the seconds are absent and default to 0. */
  lemma IsoCalendarExample(tokenPos: nat)
    ensures
      var d := map["year" := "2015", "datesep" := "-", "month" := "07", "day" := "31",
                   "hour" := "01", "timesep" := ":", "minute" := "23"];
      IsoValue(d, tokenPos) == Success(DateTime(Date(2015, 7, 31), Time(1, 23, 0, 0)))
  {
    var d := map["year" := "2015", "datesep" := "-", "month" := "07", "day" := "31",
                 "hour" := "01", "timesep" := ":", "minute" := "23"];
    FourDigits('2', '0', '1', '5');
    TwoDigits('0', '7');
    TwoDigits('3', '1');
    TwoDigits('0', '1');
    TwoDigits('2', '3');
    IsoCalendarValue(d, tokenPos, 2015, 7, 31, 1, 23, 0);
  }

  /** `2016-W01-1` decodes as the program computes it, to 28 December 2015. */
  lemma IsoWeekExample()
    ensures IsoDate(map["year" := "2016", "datesep" := "-", "week" := "01", "weekday" := "1"]) == Success(Date(2015, 12, 28))
  {
    var d := map["year" := "2016", "datesep" := "-", "week" := "01", "weekday" := "1"];
    FourDigits('2', '0', '1', '6');
    TwoDigits('0', '1');
    OneDigit('1');
    IsoWeekValue(d, 2016, 1, 1);
    AsWritten2016(2016);
  }

  // ---- keyword literals and Datetime.combine

  const Epoch: DateTime := DateTime(Date(1970, 1, 1), Midnight)

  /** The epoch is day 719163 of the proleptic Gregorian calendar. */
  lemma EpochOrdinal()
    ensures Valid(Epoch) && Ordinal(Epoch.date) == 719163
  {
    DaysBeforeYearClosed(1970);
  }

  /** `DatetimeLiteral.value()`, with the clock reading `now` as a parameter. */
  function DatetimeLiteralValue(d: Captures, now: DateTime): (r: Result<DateTime, Error>)
    ensures Get(d, "lit") == Some("now") ==> r == Success(now)
    ensures Get(d, "lit") == Some("epoch") ==> r == Success(Epoch)
    ensures r.Success? <==> Get(d, "lit") == Some("now") || Get(d, "lit") == Some("epoch")
    ensures r.Failure? ==> r.error == MalformedToken
  {
    if Get(d, "lit") == Some("now") then Success(now)
    else if Get(d, "lit") == Some("epoch") then Success(Epoch)
    else Failure(MalformedToken)
  }

  /** `DateLiteral.value()`, with the clock reading `today` as a parameter. */
  function DateLiteralValue(d: Captures, today: Date): (r: Result<Date, Error>)
    ensures r.Success? <==> Get(d, "lit") == Some("today")
    ensures r.Success? ==> r.value == today
    ensures r.Failure? ==> r.error == MalformedToken
  {
    if Get(d, "lit") == Some("today") then Success(today) else Failure(MalformedToken)
  }

  /** `Datetime.combine(date, time)`: a missing date is today, a missing time midnight. */
  function Combine(date: Option<Date>, time: Option<Time>, today: Date): (r: DateTime)
    ensures ValidDate(today) && (date.Some? ==> ValidDate(date.value)) && (time.Some? ==> ValidTime(time.value))
      ==> Valid(r)
    ensures date.Some? ==> r.date == date.value
    ensures date.None? ==> r.date == today
    ensures time.Some? ==> r.time == time.value
    ensures time.None? ==> r.time == Midnight
  {
    DateTime(if date.Some? then date.value else today, if time.Some? then time.value else Midnight)
  }
}

/** The value algebra of timecalc.py: Number, Duration and Datetime with their
    operator methods, and the Duration breakdown into unit counts under the fixed
    conventions 1 year = 365 days, 1 month = 30 days, 1 week = 7 days. */
module Values {
  import opened Wrappers
  import opened Errors
  import opened Civil
  import opened Text
  import opened Breakdown

  /** A Number is a scalar (a Python float, here an exact real); a Duration is a
      signed count of microseconds (a `timedelta` in normal form); a Datetime is a
      naive instant. */
  datatype Value = Number(n: real) | Duration(micros: int) | Datetime(dt: DateTime)

  predicate WellFormed(v: Value) {
    v.Datetime? ==> Valid(v.dt)
  }

  datatype Op = Plus | Minus | Times | Divide

  /** What an operator method does: return None, raise, or return a value. */
  datatype Applied = Undefined | Raised(err: Error) | Yields(v: Value)

  // ---- rounding of float seconds to microseconds

  /** r is the integer nearest to x, an exact half going to the neighbour further
      from zero. */
  predicate NearestAway(x: real, r: int) {
    && -0.5 <= x - r as real <= 0.5
    && (x - r as real == 0.5 ==> x < 0.0)
    && (x - r as real == -0.5 ==> x > 0.0)
  }

  /** Python 2's rounding of a float to an integer in its `datetime` module
      (`round_to_long`): `floor(x + 0.5)` from zero up and `ceil(x - 0.5)` below
      it, so an exact half goes away from zero. This is how `timedelta` absorbs a
      fractional count of microseconds. */
  function RoundHalfAway(x: real): (r: int)
    ensures NearestAway(x, r)
    ensures x == x.Floor as real ==> r == x.Floor
  {
    var f := x.Floor;
    var frac := x - f as real;
    if frac < 0.5 then f
    else if frac > 0.5 then f + 1
    else if x >= 0.0 then f + 1 else f
  }

  /** NearestAway leaves no choice: at most one integer is nearest to x. */
  lemma NearestAwayUnique(x: real, r1: int, r2: int)
    requires NearestAway(x, r1) && NearestAway(x, r2)
    ensures r1 == r2
  {
  }

  /** An exact half microsecond goes away from zero: `1 millisecond / 2000` is one
      microsecond, `-1 millisecond / 2000` is minus one, and a thousandth of a
      millisecond times 2000 is back to two milliseconds. */
  lemma HalfMicrosecondTie()
    ensures Apply(Divide, Duration(1000), Number(2000.0)) == Yields(Duration(1))
    ensures Apply(Divide, Duration(-1000), Number(2000.0)) == Yields(Duration(-1))
    ensures Apply(Times, Duration(1), Number(2000.0)) == Yields(Duration(2000))
  {
    assert 1000 as real / 2000.0 == 0.5;
    assert -1000 as real / 2000.0 == -0.5;
  }

  /** `Duration * Number`: `timedelta(seconds=delta.total_seconds() * v)`. */
  function Scale(micros: int, v: real): (r: int)
    ensures NearestAway(micros as real * v, r)
    ensures v == v.Floor as real ==> r == micros * v.Floor
  {
    var x := micros as real * v;
    assert v == v.Floor as real ==> x == (micros * v.Floor) as real;
    RoundHalfAway(x)
  }

  // ---- operators

  function AddDuration(dt: DateTime, micros: int): (r: Applied)
    requires Valid(dt)
    ensures r.Yields? ==> r.v.Datetime? && Valid(r.v.dt) && TotalMicros(r.v.dt) == TotalMicros(dt) + micros
    ensures !r.Yields? ==> r == Raised(Overflow)
  {
    match AddMicros(dt, micros)
    case Success(d) => Yields(Datetime(d))
    case Failure(e) => Raised(e)
  }

  /** `left.__op__(right)` for the methods of Number (timecalc.py:274-290),
      Duration (509-533) and Datetime (615-632). */
  function Apply(op: Op, left: Value, right: Value): (r: Applied)
    requires WellFormed(left) && WellFormed(right)
    ensures r.Yields? ==> WellFormed(r.v)
  {
    match (op, left, right)
    // Number
    case (Plus, Number(a), Number(b)) => Yields(Number(a + b))
    case (Minus, Number(a), Number(b)) => Yields(Number(a - b))
    case (Times, Number(a), Number(b)) => Yields(Number(a * b))
    case (Times, Number(a), Duration(d)) => Yields(Duration(Scale(d, a)))
    case (Divide, Number(a), Number(b)) => if b == 0.0 then Raised(ZeroDivision) else Yields(Number(a / b))
    // Duration
    case (Plus, Duration(d), Datetime(t)) => AddDuration(t, d)
    case (Plus, Duration(d), Duration(e)) => Yields(Duration(d + e))
    case (Minus, Duration(d), Duration(e)) => Yields(Duration(d - e))
    case (Times, Duration(d), Number(a)) => Yields(Duration(Scale(d, a)))
    case (Divide, Duration(d), Duration(e)) => if e == 0 then Raised(ZeroDivision) else Yields(Number(d as real / e as real))
    case (Divide, Duration(d), Number(a)) => if a == 0.0 then Raised(ZeroDivision) else Yields(Duration(RoundHalfAway(d as real / a)))
    // Datetime
    case (Plus, Datetime(t), Duration(d)) => AddDuration(t, d)
    case (Minus, Datetime(t), Duration(d)) => AddDuration(t, -d)
    case (Minus, Datetime(t), Datetime(u)) => Yields(Duration(DiffMicros(t, u)))
    case _ => Undefined
  }

  // ---- the compatibility table, stated independently

  datatype Kind = NumberK | DurationK | DatetimeK

  function KindOf(v: Value): Kind {
    match v
    case Number(_) => NumberK
    case Duration(_) => DurationK
    case Datetime(_) => DatetimeK
  }

  /** The operand type pairs each operator is defined on, and the type of the result. */
  function Table(op: Op, l: Kind, r: Kind): Option<Kind> {
    match (op, l, r)
    case (_, NumberK, NumberK) => Some(NumberK)
    case (Times, NumberK, DurationK) => Some(DurationK)
    case (Times, DurationK, NumberK) => Some(DurationK)
    case (Divide, DurationK, NumberK) => Some(DurationK)
    case (Divide, DurationK, DurationK) => Some(NumberK)
    case (Plus, DurationK, DurationK) => Some(DurationK)
    case (Minus, DurationK, DurationK) => Some(DurationK)
    case (Plus, DurationK, DatetimeK) => Some(DatetimeK)
    case (Plus, DatetimeK, DurationK) => Some(DatetimeK)
    case (Minus, DatetimeK, DurationK) => Some(DatetimeK)
    case (Minus, DatetimeK, DatetimeK) => Some(DurationK)
    case _ => None
  }

  /** An operator method returns None exactly on the pairs the table leaves out; on
      the others it returns a value of the tabled type, or raises ZeroDivisionError
      for a division by zero or OverflowError when a Datetime leaves years 1..9999. */
  lemma OperatorTable(op: Op, a: Value, b: Value)
    requires WellFormed(a) && WellFormed(b)
    ensures Apply(op, a, b).Undefined? <==> Table(op, KindOf(a), KindOf(b)).None?
    ensures Apply(op, a, b).Yields? ==> KindOf(Apply(op, a, b).v) == Table(op, KindOf(a), KindOf(b)).value
    ensures Apply(op, a, b).Raised? ==>
      (op == Divide && Apply(op, a, b).err == ZeroDivision)
      || (Table(op, KindOf(a), KindOf(b)) == Some(DatetimeK) && Apply(op, a, b).err == Overflow)
  {
  }

  /** `Duration + Datetime` commutes with `Datetime + Duration`. */
  lemma DurationPlusDatetimeCommutes(d: int, t: DateTime)
    requires Valid(t)
    ensures Apply(Plus, Duration(d), Datetime(t)) == Apply(Plus, Datetime(t), Duration(d))
  {
  }

  lemma ShiftDiff(t: DateTime, d: int)
    requires Valid(t) && AddMicros(t, d).Success?
    ensures DiffMicros(AddMicros(t, d).value, t) == d
  {
  }

  lemma ShiftUnshift(t: DateTime, d: int)
    requires Valid(t) && AddMicros(t, d).Success?
    ensures AddMicros(AddMicros(t, d).value, -d) == Success(t)
  {
    var u := AddMicros(t, d).value;
    var back := AddMicros(u, -d);
    assert back.Success? && TotalMicros(back.value) == TotalMicros(t);
    TotalMicrosInjective(back.value, t);
  }

  /** Shifting an instant by a duration and subtracting the instant gives back the
      duration; subtracting the duration gives back the instant. */
  lemma ShiftThenDiff(t: DateTime, d: int)
    requires Valid(t)
    requires Apply(Plus, Datetime(t), Duration(d)).Yields?
    ensures Apply(Minus, Apply(Plus, Datetime(t), Duration(d)).v, Datetime(t)) == Yields(Duration(d))
    ensures Apply(Minus, Apply(Plus, Datetime(t), Duration(d)).v, Duration(d)) == Yields(Datetime(t))
  {
    ShiftDiff(t, d);
    ShiftUnshift(t, d);
  }

  /** Subtracting two instants and adding the difference back lands on the first. */
  lemma DiffThenShift(t: DateTime, u: DateTime)
    requires Valid(t) && Valid(u)
    ensures Apply(Plus, Datetime(u), Apply(Minus, Datetime(t), Datetime(u)).v) == Yields(Datetime(t))
  {
  }

  // ---- a duration literal

  /** One `<number> <unit>` pair of a duration literal, with the index of the unit's token. */
  datatype Pair = Pair(amount: real, unit: Unit, tokenPos: nat)

  /** Whether the unit of pairs[j] already occurs before it. */
  predicate RepeatsEarlier(pairs: seq<Pair>, j: int)
    requires 0 <= j < |pairs|
  {
    exists i :: 0 <= i < j && pairs[i].unit == pairs[j].unit
  }

  /** The index of the first pair whose unit repeats an earlier one, looking from i
      on with the units of pairs[..i] in seen. */
  function FirstRepeat(pairs: seq<Pair>, i: nat, seen: set<Unit>): (r: Option<nat>)
    requires i <= |pairs|
    requires seen == set k | 0 <= k < i :: pairs[k].unit
    ensures r.Some? ==> i <= r.value < |pairs| && RepeatsEarlier(pairs, r.value)
    ensures r.Some? ==> forall j :: i <= j < r.value ==> !RepeatsEarlier(pairs, j)
    ensures r.None? ==> forall j :: i <= j < |pairs| ==> !RepeatsEarlier(pairs, j)
    decreases |pairs| - i
  {
    if i == |pairs| then None
    else if pairs[i].unit in seen then Some(i)
    else
      assert seen + {pairs[i].unit} == set k | 0 <= k < i + 1 :: pairs[k].unit;
      FirstRepeat(pairs, i + 1, seen + {pairs[i].unit})
  }

  // ---- the `timedelta(days, seconds, microseconds)` constructor

  /** r is within half of exact, and an exact half goes away from zero by the sign
      of leftover rather than of exact. */
  predicate RoundsLeftover(exact: real, leftover: real, r: int) {
    && -0.5 <= exact - r as real <= 0.5
    && (exact - r as real == 0.5 ==> leftover < 0.0)
    && (exact - r as real == -0.5 ==> leftover > 0.0)
  }

  /** A whole number of microseconds is kept as it is, whatever the leftover. */
  lemma RoundsWhole(exact: real, leftover: real, r: int)
    requires RoundsLeftover(exact, leftover, r)
    ensures exact == exact.Floor as real ==> r == exact.Floor
  {
    if exact == exact.Floor as real {
      var k := exact.Floor - r;
      assert -0.5 <= k as real <= 0.5;
    }
  }

  /** The integer part of x, towards zero, as C's `modf` splits it. */
  function Trunc(x: real): (r: int)
    ensures x >= 0.0 ==> 0.0 <= x - r as real < 1.0
    ensures x < 0.0 ==> -1.0 < x - r as real <= 0.0
  {
    if x >= 0.0 then x.Floor else -((-x).Floor)
  }

  /** One argument of the constructor (`accum` in CPython 2.7's `datetime`
      module): num units of factor microseconds each give a whole number of
      microseconds, kept exactly, and a fraction of a microsecond left over, which
      carries num's sign. */
  function Accum(num: real, factor: nat): (r: (int, real))
    ensures r.0 as real + r.1 == num * factor as real
    ensures -1.0 < r.1 < 1.0
    ensures num >= 0.0 ==> r.1 >= 0.0
    ensures num <= 0.0 ==> r.1 <= 0.0
  {
    var ip := Trunc(num);
    var prod := (num - ip as real) * factor as real;
    assert num >= 0.0 ==> prod >= 0.0;
    assert num <= 0.0 ==> prod <= 0.0;
    var ip2 := Trunc(prod);
    (ip * factor + ip2, prod - ip2 as real)
  }

  /** The exact microseconds the three arguments stand for. */
  function ArgsMicros(days: real, seconds: real, micros: real): real {
    days * DayMicros as real + seconds * 1000000.0 + micros
  }

  /** The fractions of a microsecond the three arguments leave over, summed. */
  function Leftover(days: real, seconds: real, micros: real): (l: real)
    ensures -3.0 < l < 3.0
    ensures ArgsMicros(days, seconds, micros) - l == (ArgsMicros(days, seconds, micros) - l).Floor as real
    ensures days >= 0.0 && seconds >= 0.0 && micros >= 0.0 ==> l >= 0.0
    ensures days <= 0.0 && seconds <= 0.0 && micros <= 0.0 ==> l <= 0.0
  {
    var (wd, ld) := Accum(days, DayMicros);
    var (ws, ls) := Accum(seconds, 1000000);
    var (wu, lu) := Accum(micros, 1);
    var w := wd + ws + wu;
    assert ArgsMicros(days, seconds, micros) - (ld + ls + lu) == w as real;
    assert (w as real).Floor == w;
    ld + ls + lu
  }

  /** `datetime.timedelta(days=d, seconds=s, microseconds=u)` in microseconds, as
      CPython 2.7 builds it: the whole microseconds of each argument exactly, then
      the summed leftover rounded once by `round_to_long`. */
  function Timedelta(days: real, seconds: real, micros: real): (r: int)
    ensures RoundsLeftover(ArgsMicros(days, seconds, micros), Leftover(days, seconds, micros), r)
  {
    var (wd, ld) := Accum(days, DayMicros);
    var (ws, ls) := Accum(seconds, 1000000);
    var (wu, lu) := Accum(micros, 1);
    assert ArgsMicros(days, seconds, micros) == (wd + ws + wu) as real + (ld + ls + lu);
    wd + ws + wu + RoundHalfAway(ld + ls + lu)
  }

  /** When no argument is of the other sign, the constructor rounds the exact
      total: one rounding, halves away from zero. */
  lemma TimedeltaSameSign(days: real, seconds: real, micros: real)
    requires (days >= 0.0 && seconds >= 0.0 && micros >= 0.0) || (days <= 0.0 && seconds <= 0.0 && micros <= 0.0)
    ensures Timedelta(days, seconds, micros) == RoundHalfAway(ArgsMicros(days, seconds, micros))
  {
    var x := ArgsMicros(days, seconds, micros);
    var r := Timedelta(days, seconds, micros);
    var l := Leftover(days, seconds, micros);
    if days >= 0.0 && seconds >= 0.0 && micros >= 0.0 {
      assert x >= 0.0 by { ArgsMicrosSign(days, seconds, micros); }
      assert l >= 0.0;
    } else {
      assert x <= 0.0 by { ArgsMicrosSign(days, seconds, micros); }
      assert l <= 0.0;
    }
    LeftoverOfTotalSign(x, l, r);
    NearestAwayUnique(x, r, RoundHalfAway(x));
  }

  lemma ArgsMicrosSign(days: real, seconds: real, micros: real)
    ensures days >= 0.0 && seconds >= 0.0 && micros >= 0.0 ==> ArgsMicros(days, seconds, micros) >= 0.0
    ensures days <= 0.0 && seconds <= 0.0 && micros <= 0.0 ==> ArgsMicros(days, seconds, micros) <= 0.0
  {
  }

  /** A leftover of the total's own sign breaks a tie as the total would. */
  lemma LeftoverOfTotalSign(x: real, l: real, r: int)
    requires RoundsLeftover(x, l, r)
    requires (l >= 0.0 && x >= 0.0) || (l <= 0.0 && x <= 0.0)
    ensures NearestAway(x, r)
  {
    if x == 0.0 {
      assert -0.5 <= -(r as real) <= 0.5;
      assert r == 0;
    }
  }

  /** A single `seconds=` argument, as `Duration * Number` and `Duration / Number`
      pass it, is rounded as its exact value is. */
  lemma OneArgument(x: real)
    ensures Timedelta(0.0, x / 1000000.0, 0.0) == RoundHalfAway(x)
  {
    assert ArgsMicros(0.0, x / 1000000.0, 0.0) == x;
    TimedeltaSameSign(0.0, x / 1000000.0, 0.0);
  }

  /** The exact number of microseconds the pairs add up to. */
  function ExactMicros(pairs: seq<Pair>): real {
    if |pairs| == 0 then 0.0
    else
      var last := pairs[|pairs| - 1];
      ExactMicros(pairs[..|pairs| - 1]) + last.amount * UnitMicros(last.unit) as real
  }

  /** The three constructor arguments `parts2delta` gathers the units into. */
  datatype Arg = DaysArg | SecondsArg | MicrosArg

  /** The argument a unit goes into, and how many of that argument one unit is. */
  function ArgOf(u: Unit): Arg {
    match u
    case Years | Months | Weeks | Days => DaysArg
    case Hours | Minutes | Seconds => SecondsArg
    case Milliseconds => MicrosArg
  }

  function PerArg(u: Unit): nat {
    match u
    case Years => 365
    case Months => 30
    case Weeks => 7
    case Days => 1
    case Hours => 3600
    case Minutes => 60
    case Seconds => 1
    case Milliseconds => 1000
  }

  /** The microseconds in one of an argument. */
  function ArgMicros(a: Arg): nat {
    match a
    case DaysArg => DayMicros
    case SecondsArg => 1000000
    case MicrosArg => 1
  }

  /** A unit's length is its share of its argument. */
  lemma UnitOfArg(u: Unit)
    ensures UnitMicros(u) == PerArg(u) * ArgMicros(ArgOf(u))
  {
  }

  /** The value `parts2delta` passes for argument a. */
  function ArgAmount(pairs: seq<Pair>, a: Arg): (r: real)
    ensures (forall i :: 0 <= i < |pairs| ==> pairs[i].amount >= 0.0) ==> r >= 0.0
    ensures (forall i :: 0 <= i < |pairs| ==> pairs[i].amount <= 0.0) ==> r <= 0.0
  {
    if |pairs| == 0 then 0.0
    else
      var last := pairs[|pairs| - 1];
      ArgAmount(pairs[..|pairs| - 1], a) + (if ArgOf(last.unit) == a then last.amount * PerArg(last.unit) as real else 0.0)
  }

  /** The three arguments together stand for the exact sum of the pairs. */
  lemma {:induction false} ExactOfArgs(pairs: seq<Pair>)
    ensures ExactMicros(pairs) == ArgsMicros(ArgAmount(pairs, DaysArg), ArgAmount(pairs, SecondsArg), ArgAmount(pairs, MicrosArg))
  {
    if |pairs| > 0 {
      var init, last := pairs[..|pairs| - 1], pairs[|pairs| - 1];
      ExactOfArgs(init);
      var step := last.amount * PerArg(last.unit) as real;
      ExactStep(pairs);
      var d, sc, u := ArgAmount(init, DaysArg), ArgAmount(init, SecondsArg), ArgAmount(init, MicrosArg);
      match ArgOf(last.unit)
      case DaysArg =>
        assert ExactMicros(pairs) == ExactMicros(init) + step * DayMicros as real;
        assert ArgAmount(pairs, DaysArg) == d + step;
        assert ArgAmount(pairs, SecondsArg) == sc && ArgAmount(pairs, MicrosArg) == u;
      case SecondsArg =>
        assert ExactMicros(pairs) == ExactMicros(init) + step * 1000000.0;
        assert ArgAmount(pairs, SecondsArg) == sc + step;
        assert ArgAmount(pairs, DaysArg) == d && ArgAmount(pairs, MicrosArg) == u;
      case MicrosArg =>
        assert ExactMicros(pairs) == ExactMicros(init) + step * 1.0;
        assert ArgAmount(pairs, MicrosArg) == u + step;
        assert ArgAmount(pairs, DaysArg) == d && ArgAmount(pairs, SecondsArg) == sc;
    }
  }

  /** The last pair adds its argument's share times that argument's microseconds. */
  lemma ExactStep(pairs: seq<Pair>)
    requires |pairs| > 0
    ensures var last := pairs[|pairs| - 1];
      ExactMicros(pairs) == ExactMicros(pairs[..|pairs| - 1])
        + last.amount * PerArg(last.unit) as real * ArgMicros(ArgOf(last.unit)) as real
  {
    var last := pairs[|pairs| - 1];
    UnitOfArg(last.unit);
    var n, p, m := last.amount, PerArg(last.unit), ArgMicros(ArgOf(last.unit));
    assert n * (p * m) as real == n * p as real * m as real;
  }

  /** The summed fraction of a microsecond the arguments for pairs leave over. */
  function PartsLeftover(pairs: seq<Pair>): real {
    Leftover(ArgAmount(pairs, DaysArg), ArgAmount(pairs, SecondsArg), ArgAmount(pairs, MicrosArg))
  }

  /** `Duration.parts2delta`: DuplicateUnit at the first unit that repeats, else the
      sum of amount times unit length in microseconds. `timedelta` keeps the whole
      microseconds of each argument and rounds once, an exact half going away from
      zero by the sign of the summed leftover of the three arguments. */
  function PartsToDelta(pairs: seq<Pair>): (r: Result<int, Error>)
    ensures r.Failure? <==> exists j :: 0 <= j < |pairs| && RepeatsEarlier(pairs, j)
    ensures r.Failure? ==>
      exists j :: 0 <= j < |pairs| && RepeatsEarlier(pairs, j)
        && (forall j' :: 0 <= j' < j ==> !RepeatsEarlier(pairs, j'))
        && r.error == DuplicateUnit(pairs[j].tokenPos)
    ensures r.Success? ==> RoundsLeftover(ExactMicros(pairs), PartsLeftover(pairs), r.value)
    ensures r.Success? && ExactMicros(pairs) == ExactMicros(pairs).Floor as real ==> r.value == ExactMicros(pairs).Floor
  {
    match FirstRepeat(pairs, 0, {})
    case Some(j) => Failure(DuplicateUnit(pairs[j].tokenPos))
    case None =>
      ExactOfArgs(pairs);
      var r := Timedelta(ArgAmount(pairs, DaysArg), ArgAmount(pairs, SecondsArg), ArgAmount(pairs, MicrosArg));
      RoundsWhole(ExactMicros(pairs), PartsLeftover(pairs), r);
      Success(r)
  }

  /** When no amount is of the other sign, the exact sum is rounded as one number,
      an exact half going away from zero. */
  lemma PartsToDeltaSameSign(pairs: seq<Pair>)
    requires (forall i :: 0 <= i < |pairs| ==> pairs[i].amount >= 0.0) || (forall i :: 0 <= i < |pairs| ==> pairs[i].amount <= 0.0)
    ensures PartsToDelta(pairs).Success? ==> PartsToDelta(pairs).value == RoundHalfAway(ExactMicros(pairs))
  {
    ExactOfArgs(pairs);
    TimedeltaSameSign(ArgAmount(pairs, DaysArg), ArgAmount(pairs, SecondsArg), ArgAmount(pairs, MicrosArg));
  }

  /** The pairs a breakdown lists, one per unit, largest first. */
  function PairsOf(p: Parts): seq<Pair> {
    seq(|Units|, k requires 0 <= k < |Units| => Pair(p.Get(Units[k]) as real, Units[k], k))
  }

  /** The pairs of a breakdown add up to its total. */
  lemma ExactMicrosOfPairs(p: Parts)
    ensures ExactMicros(PairsOf(p)) == Total(p) as real
  {
    var ps := PairsOf(p);
    var y := p.years as real * UnitMicros(Years) as real;
    assert ExactMicros(ps[..1]) == y by { assert ps[..1][..0] == []; }
    var mo := y + p.months as real * UnitMicros(Months) as real;
    assert ExactMicros(ps[..2]) == mo by { assert ps[..2][..1] == ps[..1]; }
    var w := mo + p.weeks as real * UnitMicros(Weeks) as real;
    assert ExactMicros(ps[..3]) == w by { assert ps[..3][..2] == ps[..2]; }
    var dd := w + p.days as real * UnitMicros(Days) as real;
    assert ExactMicros(ps[..4]) == dd by { assert ps[..4][..3] == ps[..3]; }
    var h := dd + p.hours as real * UnitMicros(Hours) as real;
    assert ExactMicros(ps[..5]) == h by { assert ps[..5][..4] == ps[..4]; }
    var mi := h + p.minutes as real * UnitMicros(Minutes) as real;
    assert ExactMicros(ps[..6]) == mi by { assert ps[..6][..5] == ps[..5]; }
    var se := mi + p.seconds as real * UnitMicros(Seconds) as real;
    assert ExactMicros(ps[..7]) == se by { assert ps[..7][..6] == ps[..6]; }
    assert ps[..8] == ps;
  }

  /** A breakdown names each unit once. */
  lemma PairsOfDistinct(p: Parts)
    ensures forall j :: 0 <= j < |PairsOf(p)| ==> !RepeatsEarlier(PairsOf(p), j)
  {
  }

  /** Half a microsecond of parts rounds up to one: `0.0000005 seconds` is one
      microsecond, and `-0.0000005 seconds` minus one. */
  lemma PartsToDeltaTie()
    ensures PartsToDelta([Pair(0.0000005, Seconds, 0)]) == Success(1)
    ensures PartsToDelta([Pair(-0.0000005, Seconds, 0)]) == Success(-1)
  {
    var up, down := [Pair(0.0000005, Seconds, 0)], [Pair(-0.0000005, Seconds, 0)];
    assert !RepeatsEarlier(up, 0) && !RepeatsEarlier(down, 0);
    ExactOfArgs(up);
    ExactOfArgs(down);
    assert up[..0] == [] && down[..0] == [];
    assert ArgAmount(up, DaysArg) == 0.0 && ArgAmount(up, SecondsArg) == 0.0000005 && ArgAmount(up, MicrosArg) == 0.0;
    assert ArgAmount(down, DaysArg) == 0.0 && ArgAmount(down, SecondsArg) == -0.0000005 && ArgAmount(down, MicrosArg) == 0.0;
    assert Accum(0.0000005, 1000000) == (0, 0.5);
    assert Accum(-0.0000005, 1000000) == (0, -0.5);
  }

  /** With amounts of both signs the tie goes by the leftover's sign, not the total's:
      `-1 seconds 0.0005 milliseconds` is -999999.5 microseconds exactly and comes
      out as -999999, where the exact total rounded on its own would give -1000000. */
  lemma PartsToDeltaMixedTie()
    ensures var pairs := [Pair(-1.0, Seconds, 1), Pair(0.0005, Milliseconds, 3)];
      && PartsToDelta(pairs) == Success(-999999)
      && RoundHalfAway(ExactMicros(pairs)) == -1000000
  {
    var pairs := [Pair(-1.0, Seconds, 1), Pair(0.0005, Milliseconds, 3)];
    assert !RepeatsEarlier(pairs, 0) && !RepeatsEarlier(pairs, 1);
    ExactOfArgs(pairs);
    assert ArgAmount(pairs[..1], SecondsArg) == -1.0 && ArgAmount(pairs[..1], MicrosArg) == 0.0
      by { assert pairs[..1][..0] == []; }
    assert ArgAmount(pairs, SecondsArg) == -1.0 && ArgAmount(pairs, MicrosArg) == 0.5
      && ArgAmount(pairs, DaysArg) == 0.0 by { assert pairs[..1] == [pairs[0]]; }
    LeftoversOfMixedTies();
    assert ExactMicros(pairs) == -999999.5;
  }

  lemma LeftoversOfMixedTies()
    ensures Leftover(0.0, -1.0, 0.5) == 0.5
    ensures Leftover(1.0, -0.0000005, 0.0) == -0.5
  {
    assert Accum(-1.0, 1000000) == (-1000000, 0.0);
    assert Accum(0.5, 1) == (0, 0.5);
    assert Accum(1.0, DayMicros) == (DayMicros, 0.0);
    assert Accum(-0.0000005, 1000000) == (0, -0.5);
  }

  /** The same the other way round: `1 days -0.0000005 seconds` is
      86399999999.5 microseconds exactly and comes out as 86399999999, where the
      exact total rounded on its own would give 86400000000. */
  lemma PartsToDeltaMixedTieDown()
    ensures var pairs := [Pair(1.0, Days, 0), Pair(-0.0000005, Seconds, 1)];
      && PartsToDelta(pairs) == Success(86399999999)
      && RoundHalfAway(ExactMicros(pairs)) == 86400000000
  {
    var pairs := [Pair(1.0, Days, 0), Pair(-0.0000005, Seconds, 1)];
    assert !RepeatsEarlier(pairs, 0) && !RepeatsEarlier(pairs, 1);
    ExactOfArgs(pairs);
    assert ArgAmount(pairs[..1], DaysArg) == 1.0 && ArgAmount(pairs[..1], SecondsArg) == 0.0
      by { assert pairs[..1][..0] == []; }
    assert ArgAmount(pairs, DaysArg) == 1.0 && ArgAmount(pairs, SecondsArg) == -0.0000005
      && ArgAmount(pairs, MicrosArg) == 0.0 by { assert pairs[..1] == [pairs[0]]; }
    LeftoversOfMixedTies();
    assert ExactMicros(pairs) == 86399999999.5;
  }

  /** `parts2delta(delta2parts(d)) == d` for every whole number of milliseconds d. */
  lemma PartsToDeltaOfSplit(d: int)
    requires d % 1000 == 0
    ensures PartsToDelta(PairsOf(Split(d))) == Success(d)
  {
    SplitRoundTrip(d);
    ExactMicrosOfPairs(Split(d));
    PairsOfDistinct(Split(d));
  }
}

/** `Duration.__str__` of timecalc.py: a duration as the comma-joined, pluralised
    non-zero counts of its breakdown. */
module Rendering {
  import opened Text
  import opened Breakdown

  /** `_plural(val, unit)`: the count and the unit name, singular when the count is 1. */
  function Plural(val: int, name: string): (s: string)
    requires |name| >= 1
    ensures |s| > 0
  {
    IntToString(val) + " " + (if val == 1 then name[..|name| - 1] else name)
  }

  /** One piece per non-zero count, from the i-th unit on. */
  function Pieces(p: Parts, i: nat): (ps: seq<string>)
    requires i <= |Units|
    ensures |ps| == 0 <==> forall j :: i <= j < |Units| ==> p.Get(Units[j]) == 0
    ensures forall k :: 0 <= k < |ps| ==> |ps[k]| > 0
    decreases |Units| - i
  {
    if i == |Units| then []
    else
      var rest := Pieces(p, i + 1);
      var n := p.Get(Units[i]);
      if n == 0 then rest else [Plural(n, UnitName(Units[i]))] + rest
  }

  /** `', '.join(pieces)` */
  function Join(ps: seq<string>): (s: string)
    requires forall k :: 0 <= k < |ps| ==> |ps[k]| > 0
    ensures s == "" <==> |ps| == 0
  {
    if |ps| == 0 then "" else if |ps| == 1 then ps[0] else ps[0] + ", " + Join(ps[1..])
  }

  /** `Duration.__str__`: the comma-joined non-zero counts of the breakdown. */
  function Render(micros: int): (s: string)
    ensures s == "" <==> forall j :: 0 <= j < |Units| ==> Split(micros).Get(Units[j]) == 0
  {
    Join(Pieces(Split(micros), 0))
  }
}

/** What the rendering promises: which durations render empty, that the counts
    shown are the breakdown's, and where the sign appears. */
module RenderProperties {
  import opened Text
  import opened Breakdown
  import opened Rendering

  lemma AllZeroParts(p: Parts)
    requires forall j :: 0 <= j < |Units| ==> p.Get(Units[j]) == 0
    ensures p == Parts(0, 0, 0, 0, 0, 0, 0, 0)
  {
    assert p.Get(Units[0]) == 0 && p.Get(Units[1]) == 0 && p.Get(Units[2]) == 0 && p.Get(Units[3]) == 0;
    assert p.Get(Units[4]) == 0 && p.Get(Units[5]) == 0 && p.Get(Units[6]) == 0 && p.Get(Units[7]) == 0;
  }

  lemma SmallSplitsToZero(micros: int)
    requires -1000 < micros < 1000
    ensures Split(micros) == Parts(0, 0, 0, 0, 0, 0, 0, 0)
  {
    if micros < 0 {
      SmallMagnitude(-micros);
    } else {
      SmallMagnitude(micros);
    }
  }

  /** A duration renders as the empty string exactly when it is shorter than a millisecond. */
  lemma RenderEmpty(micros: int)
    ensures Render(micros) == "" <==> -1000 < micros < 1000
  {
    if Render(micros) == "" {
      AllZeroParts(Split(micros));
    } else if -1000 < micros < 1000 {
      SmallSplitsToZero(micros);
      assert false;
    }
  }

  /** Canonical counts add up to nothing only when they are all zero. */
  lemma CanonicalTotal(p: Parts)
    requires Canonical(p)
    ensures Total(p) >= 0
    ensures Total(p) == 0 ==> p == Parts(0, 0, 0, 0, 0, 0, 0, 0)
  {
  }

  /** The rendering shows exactly the counts it was built from: a duration made of
      canonical counts renders those counts, and its negation renders each of them
      negated. */
  lemma RenderCanonical(p: Parts)
    requires Canonical(p)
    ensures Render(Total(p)) == Join(Pieces(p, 0))
    ensures Render(-Total(p)) == Join(Pieces(Negate(p), 0))
  {
    SplitOfCanonical(p);
    SplitOfNegated(p);
  }

  /** Negating a duration negates each count of its breakdown. */
  lemma SplitOfNegated(p: Parts)
    requires Canonical(p)
    ensures Split(-Total(p)) == Negate(p)
  {
    CanonicalTotal(p);
    SplitOfCanonical(p);
    if Total(p) == 0 {
      assert Negate(p) == p;
    } else {
      SplitOfNegative(Total(p));
    }
  }

  /** A negative duration splits into the negated counts of its magnitude. */
  lemma SplitOfNegative(d: int)
    requires d > 0
    ensures Split(-d) == Negate(Split(d))
  {
  }

  /** A piece starts with a minus sign exactly when its count is negative. */
  lemma PluralSign(n: int, name: string)
    requires |name| >= 1
    ensures Plural(n, name)[0] == '-' <==> n < 0
  {
    if n >= 0 {
      assert Plural(n, name)[0] == IntToString(n)[0];
      assert IsDigit(IntToString(n)[0]);
    }
  }

  /** Every piece of negated counts starts with a minus sign. */
  lemma {:induction false} PiecesNegative(p: Parts, i: nat)
    requires i <= |Units|
    requires Normal(Negate(p))
    ensures forall k :: 0 <= k < |Pieces(p, i)| ==> Pieces(p, i)[k][0] == '-'
    decreases |Units| - i
  {
    if i < |Units| {
      PiecesNegative(p, i + 1);
      var n := p.Get(Units[i]);
      var ps, rest := Pieces(p, i), Pieces(p, i + 1);
      if n == 0 {
        assert ps == rest;
      } else {
        PluralSign(n, UnitName(Units[i]));
        assert ps == [Plural(n, UnitName(Units[i]))] + rest;
        forall k | 0 < k < |ps|
          ensures ps[k][0] == '-'
        {
          assert ps[k] == rest[k - 1];
        }
      }
    }
  }

  /** No piece of non-negative counts starts with a minus sign. */
  lemma {:induction false} PiecesNonNegative(p: Parts, i: nat)
    requires i <= |Units|
    requires Normal(p)
    ensures forall k :: 0 <= k < |Pieces(p, i)| ==> Pieces(p, i)[k][0] != '-'
    decreases |Units| - i
  {
    if i < |Units| {
      PiecesNonNegative(p, i + 1);
      var n := p.Get(Units[i]);
      var ps, rest := Pieces(p, i), Pieces(p, i + 1);
      if n == 0 {
        assert ps == rest;
      } else {
        PluralSign(n, UnitName(Units[i]));
        assert ps == [Plural(n, UnitName(Units[i]))] + rest;
        forall k | 0 < k < |ps|
          ensures ps[k][0] != '-'
        {
          assert ps[k] == rest[k - 1];
        }
      }
    }
  }

  /** A duration of a millisecond or more below zero renders with a leading minus
      sign; a non-negative one never does. */
  lemma RenderSign(micros: int)
    ensures micros <= -1000 ==> |Render(micros)| > 0 && Render(micros)[0] == '-'
    ensures micros >= 0 && |Render(micros)| > 0 ==> Render(micros)[0] != '-'
  {
    var p := Split(micros);
    var ps := Pieces(p, 0);
    RenderEmpty(micros);
    if micros < 0 {
      PiecesNegative(p, 0);
    } else {
      PiecesNonNegative(p, 0);
    }
    if |ps| > 0 {
      assert Join(ps)[0] == ps[0][0];
    }
  }

  /** Ninety minutes break down canonically into one hour and thirty minutes. */
  lemma NinetyMinutesCounts()
    ensures Canonical(Parts(0, 0, 0, 0, 1, 30, 0, 0))
    ensures Total(Parts(0, 0, 0, 0, 1, 30, 0, 0)) == 90 * 60 * 1000000
  {
  }

  /** One hour and thirty minutes render with the hour singular. */
  lemma RenderHourAndHalf()
    ensures Join(Pieces(Parts(0, 0, 0, 0, 1, 30, 0, 0), 0)) == "1 hour, 30 minutes"
  {
    var p := Parts(0, 0, 0, 0, 1, 30, 0, 0);
    var hour := Plural(1, "hours");
    var minutes := Plural(30, "minutes");
    assert Pieces(p, 5) == [minutes];
    assert Pieces(p, 0) == [hour, minutes];
    assert Join([hour, minutes]) == hour + ", " + minutes;
    HourAndHalfPieces();
  }

  lemma HourAndHalfPieces()
    ensures Plural(1, "hours") + ", " + Plural(30, "minutes") == "1 hour, 30 minutes"
  {
    assert NatToString(30) == NatToString(3) + [DigitChar(0)] == "30";
    assert Plural(1, "hours") == "1 hour" && Plural(30, "minutes") == "30 minutes";
  }

  /** The negated counts of one day render as "-1 days": the singular is only
      chosen for a count of exactly 1. */
  lemma RenderMinusOneDay()
    ensures Join(Pieces(Negate(Parts(0, 0, 0, 1, 0, 0, 0, 0)), 0)) == "-1 days"
  {
    var q := Parts(0, 0, 0, -1, 0, 0, 0, 0);
    assert Negate(Parts(0, 0, 0, 1, 0, 0, 0, 0)) == q;
    assert IntToString(-1) == "-" + NatToString(1) == "-1";
    assert Plural(-1, "days") == "-1 days";
    assert Pieces(q, 3) == ["-1 days"];
  }
}

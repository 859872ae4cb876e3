/** How the lexer settles ties between terminals, on the input "2015-02-29". */
module LexerExamples {
  import opened Wrappers
  import opened Terminals
  import opened Lexer

  lemma IsoOn(s: string)
    requires s == "2015-02-29"
    ensures Len(Recognise(ISO8601T, s)) == 10
  {
    assert DigitsAt(s, 0, 4);
    assert IsoDatePart(s, 5, "-").Some?;
    assert IsoTimePart(s, 10).None?;
  }

  lemma DateOn(s: string)
    requires s == "2015-02-29"
    ensures Len(Recognise(DateT, s)) == 10
  {
    assert DateAttempt(s, 4, "-", 2).Some?;
  }

  lemma NumberOn(s: string)
    requires s == "2015-02-29"
    ensures Len(Recognise(NumberT, s)) == 4
  {
    assert DigitRun(s, 4) == 0;
    assert DigitRun(s, 0) == 4;
  }

  lemma UnitOn(s: string)
    requires s == "2015-02-29"
    ensures Len(Recognise(UnitT, s)) == 0
  {
  }

  lemma WordsOn(s: string)
    requires s == "2015-02-29"
    ensures Len(Recognise(DatetimeLiteralT, s)) == 0 && Len(Recognise(DateLiteralT, s)) == 0
  {
    NotLitAt(s, "now");
    NotLitAt(s, "epoch");
    NotLitAt(s, "today");
  }

  /** A word that starts with another letter is not at the head of s. */
  lemma NotLitAt(s: string, w: string)
    requires |s| > 0 && |w| > 0 && s[0] != w[0]
    ensures !LitAt(s, 0, w)
  {
    if |w| <= |s| {
      assert s[0..|w|][0] == s[0];
    }
  }

  /** ISO8601 and Date both match all ten characters; ISO8601 is registered first
      and so wins the tie, which is what later turns the impossible date into an
      InvalidDate error rather than a Date value error. */
  lemma IsoWinsTie(s: string)
    requires s == "2015-02-29"
    ensures Best(s).Some? && Catalogue[Best(s).value.0] == ISO8601T
  {
    var ms := Matches(s);
    assert Len(ms[4]) == 10 by { IsoOn(s); }
    assert Len(ms[0]) == 4 by { NumberOn(s); }
    assert Len(ms[1]) == 0 by { UnitOn(s); }
    assert Len(ms[2]) == 0 && Len(ms[3]) == 0 by { WordsOn(s); }
    FifthOfTen(ms);
    assert Best(s) == BestOf(ms);
  }

  /** The fifth answer wins when it alone reaches ten characters among the first five. */
  lemma FifthOfTen(ms: seq<Option<Match>>)
    requires |ms| == |Catalogue| && forall i :: 0 <= i < |ms| && ms[i].Some? ==> 1 <= ms[i].value.len <= 10
    requires Len(ms[4]) == 10 && Len(ms[0]) < 10 && Len(ms[1]) < 10 && Len(ms[2]) < 10 && Len(ms[3]) < 10
    ensures BestOf(ms).Some? && BestOf(ms).value.0 == 4
  {
    PicksFirstLongest(ms, 4, 10);
  }
}

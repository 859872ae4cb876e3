/** The terminal catalogue of timecalc.py: each terminal's pattern as a hand-written
    recogniser that behaves as Python's backtracking `re.match` does on that pattern
    (alternatives tried left to right, greedy repetition), returning the length of
    the match and its named groups. */
module Terminals {
  import opened Wrappers
  import opened Text
  import opened Fields

  datatype Terminal =
    | NumberT | UnitT | DatetimeLiteralT | DateLiteralT | ISO8601T | DateT | TimeT
    | CommaT | OpenParenT | CloseParenT | MinusT | PlusT | MultiplicationT | DivisionT
    | WhitespaceT

  /** The terminals in registration order, which decides ties in the lexer. */
  const Catalogue: seq<Terminal> := [
    NumberT, UnitT, DatetimeLiteralT, DateLiteralT, ISO8601T, DateT, TimeT,
    CommaT, OpenParenT, CloseParenT, MinusT, PlusT, MultiplicationT, DivisionT,
    WhitespaceT]

  /** Terminals whose tokens the lexer drops. */
  predicate Ignored(t: Terminal) {
    t == WhitespaceT
  }

  datatype Match = Match(len: nat, groups: seq<Group>)

  predicate Fits(s: string, m: Match) {
    1 <= m.len <= |s|
  }

  /** Whether s holds w at offset i. */
  predicate LitAt(s: string, i: nat, w: string) {
    i + |w| <= |s| && s[i..i + |w|] == w
  }

  /** Whether s holds n digits at offset i. */
  predicate DigitsAt(s: string, i: nat, n: nat) {
    i + n <= |s| && forall k :: i <= k < i + n ==> IsDigit(s[k])
  }

  /** The length of the longest run of digits at offset i (`\d*`). */
  function DigitRun(s: string, i: nat): (n: nat)
    requires i <= |s|
    ensures DigitsAt(s, i, n)
    ensures i + n == |s| || !IsDigit(s[i + n])
    decreases |s| - i
  {
    if i < |s| && IsDigit(s[i]) then
      1 + DigitRun(s, i + 1)
    else 0
  }

  /** The length of the longest run of whitespace at offset i (`\s*`). */
  function SpaceRun(s: string, i: nat): (n: nat)
    requires i <= |s|
    ensures i + n <= |s|
    ensures forall k :: i <= k < i + n ==> IsSpace(s[k])
    ensures i + n == |s| || !IsSpace(s[i + n])
    decreases |s| - i
  {
    if i < |s| && IsSpace(s[i]) then 1 + SpaceRun(s, i + 1) else 0
  }

  function Slice(s: string, i: nat, n: nat): string
    requires i + n <= |s|
  {
    s[i..i + n]
  }

  // ---- Number: -?\d+(?:\.\d*)?

  function MatchNumber(s: string): (r: Option<Match>)
    ensures r.Some? ==> Fits(s, r.value)
  {
    var i := if |s| > 0 && s[0] == '-' then 1 else 0;
    var w := DigitRun(s, i);
    if w == 0 then None
    else
      var j := i + w;
      var len := if j < |s| && s[j] == '.' then j + 1 + DigitRun(s, j + 1) else j;
      Some(Match(len, [("number", Some(s[..len]))]))
  }

  // ---- Unit: one named group per unit, alternatives in pattern order

  const UnitGroups: seq<string> :=
    ["milliseconds", "seconds", "minutes", "hours", "days", "weeks", "months", "years"]

  type Letter = c: char | 'a' <= c <= 'z' witness 'a'
  type UnitIndex = k: nat | k < 8

  /** The spellings of the Unit pattern in the order the regex tries them, each as
      its initial letter, the rest of the word and the index of its named group;
      every `xs?` alternative tries the spelling with the `s` before the one without. */
  const UnitSpellings: seq<(Letter, string, UnitIndex)> := [
    ('m', "illiseconds", 0), ('m', "illisecond", 0), ('m', "s", 0),
    ('s', "econds", 1), ('s', "econd", 1), ('s', "ecs", 1), ('s', "ec", 1), ('s', "", 1),
    ('m', "inutes", 2), ('m', "inute", 2), ('m', "ins", 2), ('m', "in", 2),
    ('h', "ours", 3), ('h', "our", 3), ('h', "rs", 3), ('h', "r", 3),
    ('d', "ays", 4), ('d', "ay", 4), ('d', "", 4),
    ('w', "eeks", 5), ('w', "eek", 5), ('w', "ks", 5), ('w', "k", 5), ('w', "", 5),
    ('m', "onths", 6), ('m', "onth", 6), ('m', "ons", 6), ('m', "on", 6),
    ('y', "ears", 7), ('y', "ear", 7), ('y', "rs", 7), ('y', "r", 7), ('y', "", 7)]

  function UnitGroupList(k: UnitIndex, word: string): (g: seq<Group>)
    ensures |g| == |UnitGroups|
    ensures forall i :: 0 <= i < |g| ==> g[i].0 == UnitGroups[i] && (g[i].1.Some? <==> i == k)
    ensures g[k].1 == Some(word)
  {
    seq(|UnitGroups|, i requires 0 <= i < |UnitGroups| => (UnitGroups[i], if i == k then Some(word) else None))
  }

  function MatchUnitFrom(s: string, i: nat): (r: Option<Match>)
    requires i <= |UnitSpellings|
    ensures r.Some? ==> Fits(s, r.value) && 'a' <= s[0] <= 'z'
    decreases |UnitSpellings| - i
  {
    if i == |UnitSpellings| then None
    else
      var (initial, rest, k) := UnitSpellings[i];
      var word := [initial] + rest;
      if LitAt(s, 0, word) then Some(Match(|word|, UnitGroupList(k, word)))
      else MatchUnitFrom(s, i + 1)
  }

  /** The Unit terminal; every spelling starts with a lower-case letter. */
  function MatchUnit(s: string): (r: Option<Match>)
    ensures r.Some? ==> Fits(s, r.value) && 'a' <= s[0] <= 'z'
  {
    MatchUnitFrom(s, 0)
  }

  // ---- keyword literals

  function MatchWords(s: string, words: seq<string>, group: string): (r: Option<Match>)
    requires forall i :: 0 <= i < |words| ==> |words[i]| > 0
    ensures r.Some? ==> Fits(s, r.value)
    ensures r.Some? ==> exists i :: 0 <= i < |words| && LitAt(s, 0, words[i])
  {
    if |words| == 0 then None
    else if LitAt(s, 0, words[0]) then Some(Match(|words[0]|, [(group, Some(words[0]))]))
    else MatchWords(s, words[1..], group)
  }

  // ---- ISO8601

  /** The date part: `\d{2}sep\d{2}` | `\d{3}` | `W\d{2}sep\d`, from offset p. */
  function IsoDatePart(s: string, p: nat, sep: string): (r: Option<(nat, seq<Group>)>)
    ensures r.Some? ==> p < r.value.0 <= |s|
  {
    if DigitsAt(s, p, 2) && LitAt(s, p + 2, sep) && DigitsAt(s, p + 2 + |sep|, 2) then
      var e := p + 2 + |sep| + 2;
      Some((e, [("month", Some(Slice(s, p, 2))), ("day", Some(Slice(s, e - 2, 2))),
                ("yearday", None), ("week", None), ("weekday", None)]))
    else if DigitsAt(s, p, 3) then
      Some((p + 3, [("month", None), ("day", None),
                    ("yearday", Some(Slice(s, p, 3))), ("week", None), ("weekday", None)]))
    else if LitAt(s, p, "W") && DigitsAt(s, p + 1, 2) && LitAt(s, p + 3, sep) && DigitsAt(s, p + 3 + |sep|, 1) then
      var e := p + 3 + |sep| + 1;
      Some((e, [("month", None), ("day", None), ("yearday", None),
                ("week", Some(Slice(s, p + 1, 2))), ("weekday", Some(Slice(s, e - 1, 1)))]))
    else None
  }

  /** The optional time part `(?:\s+|T)\d{2}(:?)\d{2}(?:sep\d{2})?`, from offset p;
      None when the optional group matches nothing. */
  function IsoTimePart(s: string, p: nat): (r: Option<(nat, seq<Group>)>)
    requires p <= |s|
    ensures r.Some? ==> p < r.value.0 <= |s|
  {
    var ws := SpaceRun(s, p);
    var lead := if ws > 0 then ws else if LitAt(s, p, "T") then 1 else 0;
    var h := p + lead;
    if lead == 0 || !DigitsAt(s, h, 2) then None
    else
      var sep := if LitAt(s, h + 2, ":") then ":" else "";
      var mi := h + 2 + |sep|;
      if !DigitsAt(s, mi, 2) then None
      else
        var hasSec := LitAt(s, mi + 2, sep) && DigitsAt(s, mi + 2 + |sep|, 2);
        var e := if hasSec then mi + 2 + |sep| + 2 else mi + 2;
        Some((e, [("hour", Some(Slice(s, h, 2))), ("timesep", Some(sep)), ("minute", Some(Slice(s, mi, 2))),
                  ("second", if hasSec then Some(Slice(s, e - 2, 2)) else None)]))
  }

  const NoIsoTime: seq<Group> := [("hour", None), ("timesep", None), ("minute", None), ("second", None)]

  function MatchIso(s: string): (r: Option<Match>)
    ensures r.Some? ==> Fits(s, r.value)
  {
    if !DigitsAt(s, 0, 4) then None
    else
      // `-?` is greedy, and giving the `-` back cannot help: a digit or `W` must follow the year
      var sep := if LitAt(s, 4, "-") then "-" else "";
      match IsoDatePart(s, 4 + |sep|, sep)
      case None => None
      case Some((e, dateGroups)) =>
        var head := [("year", Some(Slice(s, 0, 4))), ("datesep", Some(sep))];
        match IsoTimePart(s, e)
        case None => Some(Match(e, head + dateGroups + NoIsoTime))
        case Some((e', timeGroups)) => Some(Match(e', head + dateGroups + timeGroups))
  }

  // ---- Date: (?P<year>\d{2,4})(?P<_datesep>[/-]?)(?P<month>\d{1,2})(?P=_datesep)(?P<day>\d{1,2})

  /** One backtracking attempt of the Date pattern with the year, separator and
      month lengths fixed; the day takes two digits when it can. */
  function DateAttempt(s: string, yl: nat, sep: string, ml: nat): (r: Option<Match>)
    ensures r.Some? ==> Fits(s, r.value)
  {
    if DigitsAt(s, 0, yl) && LitAt(s, yl, sep) && DigitsAt(s, yl + |sep|, ml) && LitAt(s, yl + |sep| + ml, sep) then
      var d := yl + |sep| + ml + |sep|;
      var dl := if DigitsAt(s, d, 2) then 2 else if DigitsAt(s, d, 1) then 1 else 0;
      if dl == 0 then None
      else Some(Match(d + dl, [("year", Some(Slice(s, 0, yl))), ("_datesep", Some(sep)),
                               ("month", Some(Slice(s, yl + |sep|, ml))), ("day", Some(Slice(s, d, dl)))]))
    else None
  }

  function FirstSome(rs: seq<Option<Match>>): (r: Option<Match>)
    ensures r.Some? ==> exists i :: 0 <= i < |rs| && rs[i] == r
    ensures r.None? ==> forall i :: 0 <= i < |rs| ==> rs[i].None?
  {
    if |rs| == 0 then None else if rs[0].Some? then rs[0] else FirstSome(rs[1..])
  }

  function DateForYear(s: string, yl: nat): (r: Option<Match>)
    ensures r.Some? ==> Fits(s, r.value)
  {
    var seps := if LitAt(s, yl, "/") then ["/", ""] else if LitAt(s, yl, "-") then ["-", ""] else [""];
    var attempts := seq(2 * |seps|, i requires 0 <= i < 2 * |seps| => DateAttempt(s, yl, seps[i / 2], 2 - i % 2));
    FirstSome(attempts)
  }

  function MatchDate(s: string): (r: Option<Match>)
    ensures r.Some? ==> Fits(s, r.value)
  {
    FirstSome([DateForYear(s, 4), DateForYear(s, 3), DateForYear(s, 2)])
  }

  // ---- Time

  function AmPmAt(s: string, i: nat): Option<string> {
    if LitAt(s, i, "am") then Some("am") else if LitAt(s, i, "pm") then Some("pm") else None
  }

  /** One attempt of the Time pattern with the hour taking hl digits. */
  function TimeAttempt(s: string, hl: nat): (r: Option<Match>)
    requires 1 <= hl
    ensures r.Some? ==> Fits(s, r.value)
  {
    if !DigitsAt(s, 0, hl) then None
    else if hl < |s| && (s[hl] == ':' || s[hl] == '.') && DigitsAt(s, hl + 1, 2) then
      // first alternative: separator, minute, optional second, spaces, optional am/pm
      var sep := [s[hl]];
      var hasSec := LitAt(s, hl + 3, sep) && DigitsAt(s, hl + 4, 2);
      var q := if hasSec then hl + 6 else hl + 3;
      var q' := q + SpaceRun(s, q);
      var ampm := AmPmAt(s, q');
      Some(Match(if ampm.Some? then q' + 2 else q',
        [("hour", Some(Slice(s, 0, hl))), ("_timesep", Some(sep)), ("minute", Some(Slice(s, hl + 1, 2))),
         ("second", if hasSec then Some(Slice(s, hl + 4, 2)) else None), ("ampm", ampm), ("ampm_2", None)]))
    else
      // second alternative: spaces then a mandatory am/pm
      var q := hl + SpaceRun(s, hl);
      match AmPmAt(s, q)
      case None => None
      case Some(ampm) =>
        Some(Match(q + 2, [("hour", Some(Slice(s, 0, hl))), ("_timesep", None), ("minute", None),
                           ("second", None), ("ampm", None), ("ampm_2", Some(ampm))]))
  }

  function MatchTime(s: string): (r: Option<Match>)
    ensures r.Some? ==> Fits(s, r.value)
  {
    FirstSome([TimeAttempt(s, 2), TimeAttempt(s, 1)])
  }

  // ---- punctuation and whitespace

  function MatchChar(s: string, c: char): (r: Option<Match>)
    ensures r.Some? ==> Fits(s, r.value)
  {
    if |s| > 0 && s[0] == c then Some(Match(1, [])) else None
  }

  function MatchSpace(s: string): (r: Option<Match>)
    ensures r.Some? ==> Fits(s, r.value)
    ensures r.Some? <==> |s| > 0 && IsSpace(s[0])
    ensures r.Some? ==> forall k :: 0 <= k < r.value.len ==> IsSpace(s[k])
  {
    var n := SpaceRun(s, 0);
    if n == 0 then None else Some(Match(n, []))
  }

  /** `cls.re.match(text, start)` with s the text from `start` on. */
  function Recognise(t: Terminal, s: string): (r: Option<Match>)
    ensures r.Some? ==> Fits(s, r.value)
  {
    match t
    case NumberT => MatchNumber(s)
    case UnitT => MatchUnit(s)
    case DatetimeLiteralT => MatchWords(s, ["now", "epoch"], "lit")
    case DateLiteralT => MatchWords(s, ["today"], "lit")
    case ISO8601T => MatchIso(s)
    case DateT => MatchDate(s)
    case TimeT => MatchTime(s)
    case CommaT => MatchChar(s, ',')
    case OpenParenT => MatchChar(s, '(')
    case CloseParenT => MatchChar(s, ')')
    case MinusT => MatchChar(s, '-')
    case PlusT => MatchChar(s, '+')
    case MultiplicationT => MatchChar(s, '*')
    case DivisionT => MatchChar(s, '/')
    case WhitespaceT => MatchSpace(s)
  }

  // ---- what starts with whitespace

  /** A word at the head of s starts with s's first character. */
  lemma LitHead(s: string, w: string)
    requires |w| > 0 && LitAt(s, 0, w)
    ensures s[0] == w[0]
  {
    assert s[0..|w|][0] == s[0];
  }

  /** The Date pattern needs a digit first. */
  lemma NoDateForYear(s: string, yl: nat)
    requires yl >= 1 && |s| > 0 && !IsDigit(s[0])
    ensures DateForYear(s, yl) == None
  {
    assert !DigitsAt(s, 0, yl);
    var seps := if LitAt(s, yl, "/") then ["/", ""] else if LitAt(s, yl, "-") then ["-", ""] else [""];
    var attempts := seq(2 * |seps|, i requires 0 <= i < 2 * |seps| => DateAttempt(s, yl, seps[i / 2], 2 - i % 2));
    assert forall i :: 0 <= i < |attempts| ==> attempts[i].None?;
  }

  /** Whitespace is the only terminal that can start at a whitespace character:
      every other pattern begins with a digit, a sign, a letter or a punctuation mark. */
  lemma OnlySpaceAtSpace(t: Terminal, s: string)
    requires |s| > 0 && IsSpace(s[0]) && t != WhitespaceT
    ensures Recognise(t, s) == None
  {
    match t
    case NumberT => assert DigitRun(s, 0) == 0;
    case DatetimeLiteralT =>
      var words := ["now", "epoch"];
      if MatchWords(s, words, "lit").Some? {
        var i :| 0 <= i < |words| && LitAt(s, 0, words[i]);
        LitHead(s, words[i]);
      }
    case DateLiteralT =>
      var words := ["today"];
      if MatchWords(s, words, "lit").Some? {
        var i :| 0 <= i < |words| && LitAt(s, 0, words[i]);
        LitHead(s, words[i]);
      }
    case ISO8601T => assert !DigitsAt(s, 0, 4);
    case DateT =>
      NoDateForYear(s, 4);
      NoDateForYear(s, 3);
      NoDateForYear(s, 2);
    case TimeT => assert !DigitsAt(s, 0, 2) && !DigitsAt(s, 0, 1);
    case _ =>
  }
}

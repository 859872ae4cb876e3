# timecalc in Dafny

A model of the core of **timecalc**. timecalc is a small calculator over dates, times and durations. It reads expressions such as `2015/05/04 10:45 + 3 hours + 10 seconds`, `2 hours / 1 second` or `2015/07/15 - 2015/08/15`. The model covers the five stages of `timecalc.py`:

1. **Lexer** (`do_lexer`, `tweak_match_dict`). At each offset it takes the longest match over the ordered terminal catalogue. On a tie, the earliest registered terminal wins. Whitespace is dropped. An offset where nothing matches raises `BadToken`. Each terminal's regular expression is written as a hand-made recogniser that returns the match length and the named groups.
2. **Parser engine** (`parse_rule`, `parse_nonterm`, `do_parser`). This is a backtracking recursive-descent engine, generic over the grammar. A rule that fails at its first symbol fails *softly*, and the next rule is tried. A rule that fails after a symbol has matched fails *hard*, with `NotEnoughTokens` or `ParserSyntaxError`. The engine terminates by a rank on nonterminals and the tokens consumed, with no fuel.
3. **Grammar.** The nonterminals Expression through DatetimeEx2 are an explicit rule table. Each nonterminal lists its rules in sorted method-name order, the order `parse_nonterm` tries them. The rule builders decode literals and assemble trees. `make_ast_lr` turns the right-nested operator chains into left-associative trees.
4. **Value algebra.** Number, Duration and Datetime, and their operator methods, which return None on undefined type pairs. Also the Duration breakdown into unit counts (`parts2delta`, `delta2parts`, `__str__`) under the conventions 1 year = 365 days, 1 month = 30 days, 1 week = 7 days.
5. **Evaluator** (`do_compute`, `compute_from_string`). It evaluates the tree bottom-up, left operand first. It reports an operator that returns None as `BadOperand` at the operator's token.

`durations.py`, an earlier draft of the same calculator, is modelled separately in module `Draft`. It has its own conventions:
- a Duration is a count per unit, renormalised only by `+` and `-`;
- a Datetime is six integer fields, where 0 means unset;
- adding months and years to a Datetime is calendar-aware;
- undefined operations raise instead of returning None;
- the hand-written parser groups `+` and `-` to the right and takes at most one `*` per term.

Representation:
- A Duration is a signed integer count of microseconds, Python's `timedelta` normal form.
- A Number is an exact `real`.
- A Datetime is a validated civil date and time in the proleptic Gregorian calendar, years 1..9999. Module `Civil` holds the day-number arithmetic of Python's `datetime`.
- Leaving that range is `Overflow`.
- Errors are a `Result` carrying the exception the program raises (module `Errors`).
- The clock readings `now` and `today` are parameters.

Modules:
- `Wrappers`, `Errors`, `Text` and `Civil` are shared infrastructure.
- `Fields` is `tweak_match_dict` / `tweak_dict`.
- `Terminals`, `Lexer` and `LexerExamples` cover the lexer.
- `Engine`, `Grammar` and `Syntax` cover the parser. `GrammarRuns` proves what the parser builds from given token sequences: operator chains, number and duration factors, dates combined with times.
- `Literals` decodes literal tokens.
- `Breakdown` and `Values` hold the value algebra. `Rendering` is `Duration.__str__`, and `RenderProperties` states what it renders.
- `Evaluator` is the evaluator.
- `Draft` is durations.py.

## Model

| member | source | states |
|---|---|---|
| Fields.Tweak | timecalc.py:53-64 | The keys are exactly the names of the groups that matched, with a trailing `_<digit>` removed. Each key's value is the text of a matched group with that cleaned name. |
| Terminals.MatchSpace | timecalc.py:442-444 | Whitespace matches exactly when the text starts with a whitespace character, and everything it covers is whitespace. |
| Lexer.BestOf | timecalc.py:123-132 | The chosen terminal's match is at least as long as every other terminal's. Every earlier terminal matches strictly less. There is no choice only when no terminal matches. |
| Lexer.PicksFirstLongest | timecalc.py:123-132 | Because the comparison `best < new` is strict, the first terminal that reaches the longest length is the one chosen. |
| LexerExamples.IsoWinsTie | timecalc.py:123-132 | `2015-02-29` is matched in full, 10 characters, by both ISO8601 and Date. ISO8601 is registered first, so it wins the tie. |
| Lexer.TokenAt | timecalc.py:123-142 | At an offset, the token is the best match's terminal with its cleaned-up fields, spanning the match. There is no token exactly when no terminal matches there. |
| Lexer.FirstLongest | timecalc.py:123-132 | The best match is a terminal's own match. It is at least as long as every terminal's match and strictly longer than every earlier terminal's. There is none exactly when no terminal matches. |
| Lexer.BestAtSpace | timecalc.py:123-132 | At a whitespace character the Whitespace terminal wins, and its match is the whole whitespace run. |
| Lexer.Scan | timecalc.py:121-144 | From an offset on, the tokens are the best matches in text order. Whitespace tokens are dropped, and only whitespace lies between and after the tokens. A failure is BadToken at the offset that the chain of best matches from the start reaches, where no terminal matches. |
| Lexer.Tokenize | timecalc.py:118-145 | Whenever the text can be cut into best-match tokens at all, the result is exactly that token list with whitespace dropped. Otherwise it is BadToken at the offset where the chain of longest matches from offset 0 finds nothing. |
| Lexer.StopsOnce | timecalc.py:121-144 | The chain of best matches from an offset gets stuck at one offset at most, so the position BadToken carries is fixed by the text. |
| Lexer.ScanComplete | timecalc.py:121-144 | When the text from an offset is cut into tokens by the best matches, the scan succeeds with exactly those tokens. |
| Terminals.OnlySpaceAtSpace | timecalc.py:260-444 | No terminal other than Whitespace matches text that starts with a whitespace character. |
| Engine.BrokenRule | timecalc.py:224-229 | A rule broken after a partial match raises a syntax error at the current token exactly when tokens remain. With tokens but none left, it raises NotEnoughTokens. With no tokens at all, `tokens[-1]` raises IndexError. |
| Engine.ParseSyms | timecalc.py:207-230 | A rule's matched parts extend the parts before them and line up with its symbols: a token of the right terminal for each terminal, a built value for each nonterminal. Only a failure at the first symbol is soft. A syntax error lies within the remaining tokens. |
| Engine.Conclude | timecalc.py:243-248 | A rule that did not fail softly gives the builder's value at the rule's end position, or the rule's error, or the builder's error. It never gives a soft failure. |
| Engine.ParseRules | timecalc.py:235-247 | The rule loop gives a position within the tokens and values that keep the grammar's invariant. Syntax errors lie within the tokens. |
| Engine.OrderedChoice | timecalc.py:232-248 | A nonterminal fails softly (BadSymbol) exactly when every rule fails softly. Otherwise it gives what the first rule that does not fail softly gives, through that rule's builder. |
| Engine.ParseNT | timecalc.py:232-248 | Parsing a nonterminal ends within the tokens with a value that keeps the grammar's invariant. |
| Engine.ParseAll | timecalc.py:250-254 | Success means the entry nonterminal consumed every token. Parsing that stops early is ExtraTokens at the first unconsumed token. A soft failure is BadSymbol, and a hard one passes through. |
| Grammar.RulesSorted | timecalc.py:235 | Every nonterminal lists its rules in the order of Python's `sorted` on their method names. |
| Grammar.GrammarWellFormed | timecalc.py:645-708 | The grammar has no left recursion: a rule reaches a nonterminal of equal or higher rank only after a terminal. No builder raises the engine's syntax error. Builders keep trees' leaves well-formed and dates and times valid. |
| Grammar.NumberFactor | timecalc.py:651-657 | A bare number builds a Number leaf holding the decimal its text spells, and fails exactly when the text is no decimal. A number with units builds a Duration leaf holding an integer within half a microsecond of the exact sum of amount times unit over its pairs; an exact half goes away from zero by the sign of the fractions of a microsecond the three `timedelta` arguments leave over. DuplicateUnit arises only with units. |
| Grammar.BuildFactor | timecalc.py:645-660 | The Factor rules (datetime, number with optional units, parenthesised expression) build a tree with well-formed leaves. Failures are DuplicateUnit or a bad field only. The trees are stated by the GrammarRuns lemmas. |
| Grammar.BuildChain | timecalc.py:663-674 | TermD and ExpressionD build an operator chain from well-formed operands, or an empty one. |
| Grammar.BuildChained | timecalc.py:685-688 | Term and Expression apply `make_ast_lr` to their operand and chain, keeping the leaves well-formed. |
| Grammar.BuildDuration | timecalc.py:447-460 | DurationPart and DurationEx fail only on malformed parts, and what they build keeps the grammar's invariant. |
| Grammar.BuildDatetime | timecalc.py:575-597 | Each Datetime rule yields a valid instant. Failures are InvalidDate, ValueError, OverflowError or a bad field. |
| Grammar.BuildDatetimeEx | timecalc.py:551-572 | DatetimeEx1 and DatetimeEx2 yield a valid time or date, or nothing for the empty rule. |
| Grammar.Build | timecalc.py:243-248 | The builder run by `cb(*parts)` never raises the engine's own syntax error, and on sound parts it keeps the invariant. |
| Grammar.Parse | timecalc.py:250-254 | A parsed expression tree is what the Expression nonterminal builds over all the tokens, and its leaves are well-formed values. A syntax error points at an existing token. |
| GrammarRuns.TermDEnd | timecalc.py:663-674 | With no `*` or `/` next, TermD takes nothing and gives the empty chain. |
| GrammarRuns.ExpressionDEnd | timecalc.py:691-702 | With no `+` or `-` next, ExpressionD takes nothing and gives the empty chain. |
| GrammarRuns.TermDMore | timecalc.py:663-670 | A `*` or `/` followed by a Factor and a TermD adds one link, the operator with its token position and the Factor, in front of the rest of the chain. |
| GrammarRuns.ExpressionDMore | timecalc.py:691-698 | A `+` or `-` followed by a Term and an ExpressionD adds one link in front of the rest of the chain. |
| GrammarRuns.TermOf | timecalc.py:685-688 | A Term is `make_ast_lr` of its Factor and the TermD chain after it. |
| GrammarRuns.ExpressionOf | timecalc.py:705-708 | An Expression is `make_ast_lr` of its Term and the ExpressionD chain after it. |
| GrammarRuns.ProductChain | timecalc.py:663-674 | Any alternation of `*`/`/` operators and Factors, ended by a token that is neither, parses as TermD into the chain of those links in written order. |
| GrammarRuns.AdditiveChain | timecalc.py:691-702 | Any alternation of `+`/`-` operators and Terms, ended by a token that is neither, parses as ExpressionD into the chain of those links in written order. |
| GrammarRuns.TermIsProduct | timecalc.py:663-688 | A Term is the left-associative fold of its Factors under the `*` and `/` between them. |
| GrammarRuns.ParsesAsSum | timecalc.py:250-254 | When the tokens alternate Terms and `+`/`-` to the end, the parse is the left-associative fold of the Terms. So `*` and `/` bind tighter than `+` and `-`, and each level groups to the left. |
| GrammarRuns.ProductOfTwo | timecalc.py:663-688 | Two Factors joined by `*` or `/`, with neither operator after them, are a Term whose tree is that one operation, at the operator's token position. |
| GrammarRuns.SumOfTwo | timecalc.py:691-708 | Two Terms joined by `+` or `-` that cover all the tokens parse to that one operation. |
| GrammarRuns.SumOfThree | timecalc.py:691-708 | Three Terms joined by two of `+` and `-` parse with the first operator applied first: the left-grouped tree. |
| GrammarRuns.DatetimeNotNumber | timecalc.py:575-597 | A Number token starts no Datetime rule, so Factor falls through to its number rule. |
| GrammarRuns.NoUnit | timecalc.py:635-642 | NumDuration without a Unit token next gives None. |
| GrammarRuns.NoComma | timecalc.py:453-460 | DurationEx without a Comma token next gives the empty list. |
| GrammarRuns.OneUnit | timecalc.py:635-639 | A Unit with no comma after it gives NumDuration the unit and an empty list of further parts. |
| GrammarRuns.NumberThen | timecalc.py:645-656 | A Factor starting with a Number token is what `Factor.r1` builds from the number and the NumDuration after it, or its error. |
| GrammarRuns.BareNumber | timecalc.py:650-654 | A number with no unit after it parses as the bare number. |
| GrammarRuns.NumberWithUnit | timecalc.py:650-656 | A number with one unit parses as `Duration.create` of that single pair. |
| GrammarRuns.BareNumberValue | timecalc.py:650-654 | A bare number builds the leaf holding its decoded value. |
| GrammarRuns.OneUnitValue | timecalc.py:650-656 | A whole number x with a unit builds the Duration of x times the unit's length. |
| GrammarRuns.DurationTerm | timecalc.py:645-688 | `<n> <unit>` with no comma, `*` or `/` after it is a Term whose tree is the Duration leaf of n units. |
| GrammarRuns.SubtractThenAdd | tests.py:77 | `0 hours - 1 hour + 1 hour` parses as `(0 hours - 1 hour) + 1 hour` and evaluates to zero. |
| GrammarRuns.MultiplyThenAdd | tests.py:81 | `4 * 1 hour + 1 hour` parses as `(4 * 1 hour) + 1 hour` and evaluates to five hours. |
| GrammarRuns.TimeAfter | timecalc.py:551-558 | DatetimeEx1 reads a following Time token, or fails with its decoding error. With no Time token next it gives None. |
| GrammarRuns.NoDateAfter | timecalc.py:561-572 | DatetimeEx2 with no Date or DateLiteral token next gives None. |
| GrammarRuns.DateRule | timecalc.py:578-584 | Before a Date token neither the DatetimeLiteral rule nor the ISO8601 rule applies, so Datetime goes on to its Date rule. |
| GrammarRuns.TimeRule | timecalc.py:578-592 | Before a Time token none of the four rules ahead of the Time rule applies. |
| GrammarRuns.DateFirst | timecalc.py:586-589 | A Date token and what DatetimeEx1 gives after it make the instant `Datetime.combine` forms from them. |
| GrammarRuns.DateThenTime | timecalc.py:586-589 | A Date token followed by a Time token is the instant at that date and time. |
| GrammarRuns.DateAlone | timecalc.py:586-604 | A Date token with no time after it is midnight of that date. |
| GrammarRuns.TimeFirst | timecalc.py:594-596 | A Time token and what DatetimeEx2 gives after it make the instant `Datetime.combine` forms from them. |
| GrammarRuns.TimeAlone | timecalc.py:594-604 | A Time token with no date after it is that time today. |
| Syntax.MakeAstLRIsLeftAssoc | timecalc.py:676-682 | `make_ast_lr` builds the left-associative tree, with the last operator of the chain at the root, so `a - b - c` is `(a - b) - c`. |
| Syntax.MakeAstLRKeepsOrder | timecalc.py:676-682 | Read left to right, the tree's operands and operators are those of the chain, in order. |
| Syntax.MakeAstLRWellFormed | timecalc.py:676-682 | The tree is built only from the chain's operands. |
| Literals.ParseInt | timecalc.py:374-377 | `int(s)` of a field succeeds exactly on a non-empty string of digits and gives its decimal value. Otherwise ValueError. |
| Literals.NumberValue | timecalc.py:269-272 | A Number token's value is the decimal its text spells; a text that is no decimal is ValueError. |
| Literals.NumberOfInt | timecalc.py:269-272 | The text of an integer decodes to that integer. |
| Literals.NumberOfDecimal | timecalc.py:269-272 | Every spelling `-?digits(.digits?)?` decodes to its exact decimal value. |
| Literals.DecimalScaled | timecalc.py:269-272 | A decimal value times 10 to the number of fraction digits is the signed integer its digits spell. |
| Literals.NumberHalf | tests.py:56 | `0.5` decodes to one half. |
| Literals.NumberFortyTwo | tests.py:85 | `42.53` decodes to 42.53. |
| Literals.UnitValue | timecalc.py:307-308 | A Unit token's value is the unit whose group matched. |
| Literals.UnitValueOfSpelling | timecalc.py:296-308 | Every spelling of a unit decodes, after field clean-up, to that unit. |
| Literals.ClockHourRange | timecalc.py:395-400 | The 12-hour clock maps hours 1..12 onto 0..23: am gives hours before noon, pm gives hours from noon on, and the hour is kept modulo 12. |
| Literals.TimeValue | timecalc.py:391-401 | A Time token decodes to a valid time with no microseconds. Otherwise ValueError. |
| Literals.TimeValueOfFields | timecalc.py:391-401 | Fields spelling an hour, minute and second in any digits, absent ones 0, decode to the time with the hour through the 12-hour rule when that time is valid, and to ValueError otherwise. |
| Literals.TimeValueTwelveHour | timecalc.py:395-400 | Writing a valid time on the 12-hour clock, in any digit spelling with absent fields 0, and decoding it gives the time back. So 12am is 00:00 and 12pm is noon. |
| Literals.TimeValueTwentyFourHour | timecalc.py:391-401 | Without am or pm, the fields of a valid time decode to that time. |
| Literals.TimeExamples | tests.py:21-25 | `14:30`, `3am`, `2:15pm` and `12am` decode to 14:30, 03:00, 14:15 and midnight. `13pm` is ValueError. |
| Literals.DateValue | timecalc.py:374-378 | A Date token decodes to a valid date, or ValueError. |
| Literals.DateValueOfFields | timecalc.py:374-378 | The fields of a date decode to that date exactly when the date exists. Otherwise ValueError. |
| Literals.IsoWeekDate | timecalc.py:350-355 | The ISO 8601 week-date rule, kept beside the program's rule: a valid date whose ISO weekday is the one written. |
| Literals.IsoWeekDateRoundTrip | timecalc.py:350-355 | Every date from the Monday of week 1 on is the week date of its own week number and ISO weekday. |
| Literals.IsoWeekDateAsWritten | timecalc.py:350-355 | The week-date branch as written. It succeeds exactly when 1 January of the year exists and the day stays in range. The date is the written weekday of the week lying (week - 1) * 7 days after the week that holds 1 January, and its ISO weekday is the one written. |
| Literals.WeekDateCounterexample | timecalc.py:350-355 | `2016-W01-1` is 2015-12-28 as written, and 2016-01-04 under the ISO 8601 week rule. |
| Literals.IsoCalendarValue | timecalc.py:341-368 | ISO calendar date fields in any digit spelling, with absent time fields 0, decode to that instant exactly when it is valid. Otherwise InvalidDate at the token. |
| Literals.IsoOrdinalDate | timecalc.py:347-349 | An ordinal date `YYYY-DDD` is the DDD-th day of the year, for any digit spelling such as `032`. Every date is the ordinal date of its own day number. |
| Literals.IsoWeekValue | timecalc.py:350-355 | A week-date token decodes by the week rule as written. |
| Literals.IsoWeekExample | timecalc.py:350-355 | `2016-W01-1` decodes to 2015-12-28. |
| Literals.IsoCalendarExample | tests.py:29 | `2015-07-31 01:23` decodes to 2015-07-31 01:23:00. |
| Literals.IsoDate | timecalc.py:341-355 | The date part of an ISO 8601 token, valid when it exists. Failures are ValueError or OverflowError. |
| Literals.IsoInstant | timecalc.py:341-362 | The instant an ISO 8601 token names, with no microseconds. Week dates follow the program's week rule. |
| Literals.IsoValue | timecalc.py:364-368 | ISO 8601 decoding wraps ValueError as InvalidDate at the token. OverflowError escapes unwrapped. |
| Literals.DatetimeLiteralValue | timecalc.py:314-318 | `now` is the clock reading and `epoch` is 1970-01-01 00:00. Any other text is a malformed token. |
| Literals.DateLiteralValue | timecalc.py:324-326 | `today` is the date reading. |
| Literals.Combine | timecalc.py:599-604 | A missing time is midnight and a missing date is today. A given date or time is kept. |
| Civil.MakeDate | timecalc.py:374-378 | `datetime.date(y, m, d)` succeeds exactly when the date exists, and otherwise raises ValueError. |
| Civil.AddMicros | timecalc.py:615-618 | Shifting an instant by a timedelta moves it by exactly that many microseconds. Leaving years 1..9999 is OverflowError. |
| Civil.DiffMicros | timecalc.py:624-626 | The difference of two instants is the timedelta that shifts the second onto the first. |
| Values.Trunc | timecalc.py:479 | The integer part `timedelta` splits off an argument lies towards zero, less than one away. |
| Values.Accum | timecalc.py:479 | One `timedelta` argument is a whole number of microseconds plus a leftover fraction of one, of the argument's sign, together exactly the argument times its unit. |
| Values.Leftover | timecalc.py:479 | The three leftovers sum to less than three microseconds either way, take the arguments' sign when they share one, and leave a whole number when taken from the exact total. |
| Values.Timedelta | timecalc.py:479 | `timedelta(days, seconds, microseconds)` is within half a microsecond of the arguments' exact total, an exact half going away from zero by the summed leftover's sign. |
| Values.TimedeltaSameSign | timecalc.py:479 | With no argument of the other sign the constructor rounds the exact total as one number, halves away from zero. |
| Values.RoundsWhole | timecalc.py:479 | A whole number of microseconds passes through the constructor unchanged, whatever the leftovers. |
| Values.OneArgument | timecalc.py:520-533 | A lone `seconds=` argument, as `Duration * Number` and `Duration / Number` pass, rounds as its exact value does. |
| Values.RoundHalfAway | timecalc.py:525 | Float seconds are rounded to the nearest microsecond, an exact half away from zero as Python 2's `timedelta` does, and integers are kept. |
| Values.NearestAwayUnique | timecalc.py:525 | The rounding rule leaves no choice: at most one integer is nearest with halves away from zero. |
| Values.Scale | timecalc.py:520-525 | `Duration * Number` multiplies exactly by an integral factor, and otherwise gives the nearest microsecond of the exact product, halves away from zero. |
| Values.HalfMicrosecondTie | timecalc.py:520-533 | `1 millisecond / 2000` is one microsecond and `-1 millisecond / 2000` minus one; one microsecond times 2000 is two milliseconds. |
| Values.Apply | timecalc.py:509-533 | The operator methods of Number, Duration and Datetime keep values well-formed. |
| Values.OperatorTable | timecalc.py:274-290 | An operator method returns None exactly on the type pairs the table leaves out. Otherwise it gives a value of the tabled type, or raises ZeroDivisionError (division) or OverflowError (a Datetime result). |
| Values.DurationPlusDatetimeCommutes | timecalc.py:509-511 | `Duration + Datetime` delegates to `Datetime + Duration`. |
| Values.ShiftThenDiff | timecalc.py:615-626 | `(dt + d) - dt == d` and `(dt + d) - d == dt`. |
| Values.DiffThenShift | timecalc.py:620-626 | `u + (t - u) == t`. |
| Rendering.Render | timecalc.py:539-547 | The rendering is empty exactly when every unit count of the breakdown is zero. |
| RenderProperties.RenderEmpty | timecalc.py:544-547 | A duration renders as the empty string exactly when it is shorter than one millisecond. |
| RenderProperties.RenderCanonical | timecalc.py:544-547 | A duration made of canonical counts renders exactly those counts, each pluralised, comma-joined, largest unit first. Its negation renders each of them negated. |
| RenderProperties.PluralSign | timecalc.py:539-542 | A piece starts with a minus sign exactly when its count is negative. |
| RenderProperties.RenderSign | timecalc.py:482-488 | A duration at least a millisecond below zero renders with a leading minus sign, and a non-negative one never does. |
| RenderProperties.RenderHourAndHalf | timecalc.py:539-547 | The counts of ninety minutes, one hour and thirty minutes, render as `1 hour, 30 minutes`. |
| RenderProperties.RenderMinusOneDay | timecalc.py:539-547 | The negated counts of one day render as `-1 days`: the singular is chosen only for a count of exactly 1. |
| Values.FirstRepeat | timecalc.py:472-475 | Finds the first pair whose unit occurred earlier, which is where DuplicateUnit is raised. None means no unit repeats. |
| Values.PartsToDelta | timecalc.py:470-479 | `parts2delta` fails with DuplicateUnit exactly when a unit repeats, at the first repeated unit's token. Otherwise it is within half a microsecond of the 365/30/7-day sum of the counts, equal to it when that sum is whole, and an exact half goes away from zero by the sign of the summed leftover of the days, seconds and microseconds arguments. |
| Values.ExactOfArgs | timecalc.py:477-479 | The days, seconds and microseconds arguments `parts2delta` gathers stand together for exactly the sum of amount times unit length. |
| Values.PartsToDeltaSameSign | timecalc.py:470-479 | When no amount has the other sign, `parts2delta` is the exact sum rounded once to the nearest microsecond, an exact half away from zero. |
| Values.PartsToDeltaMixedTie | timecalc.py:470-479 | `-1 seconds 0.0005 milliseconds` (exactly -999999.5 microseconds) is -999999, not the -1000000 the exact total would round to. |
| Values.PartsToDeltaMixedTieDown | timecalc.py:470-479 | `1 days -0.0000005 seconds` (exactly 86399999999.5 microseconds) is 86399999999, not 86400000000. |
| Values.PartsToDeltaTie | timecalc.py:470-479 | `0.0000005 seconds` is one microsecond and `-0.0000005 seconds` minus one. |
| Values.PartsToDeltaOfSplit | timecalc.py:466-504 | `parts2delta(delta2parts(d)) == d` for every whole number of milliseconds d. |
| Breakdown.Split | timecalc.py:482-504 | `delta2parts` gives every count the sign of delta, with bounded magnitudes (months < 13, weeks < 5, days < 7, hours < 24, minutes and seconds < 60, milliseconds < 1000). It loses less than a millisecond. |
| Breakdown.SplitMagnitude | timecalc.py:489-500 | The divmod chain on a magnitude gives canonical counts that lose less than a millisecond. |
| Breakdown.SplitRoundTrip | timecalc.py:482-504 | The counts of a whole number of milliseconds add back up to it exactly. |
| Breakdown.SplitOfCanonical | timecalc.py:482-504 | Counts in canonical form are what the breakdown of their total gives back. |
| Breakdown.SmallMagnitude | timecalc.py:489-500 | Less than a millisecond breaks down to all zeros. |
| Evaluator.Evaluate | timecalc.py:726-736 | Evaluation yields a well-formed value. It fails only with ZeroDivisionError, OverflowError, or BadOperand at one of the tree's operators. |
| Evaluator.TypeSoundness | timecalc.py:726-736 | A value has the type the operator table gives the tree. A well-typed tree never raises BadOperand, and an ill-typed tree always fails. |
| Evaluator.FirstFailureWins | timecalc.py:728-735 | The left operand's error wins over the right's. With both evaluated, BadOperand at the operator's token is raised exactly when the table has no entry. |
| Evaluator.Compute | timecalc.py:739-742 | A lexer error or parser error is the result. Otherwise the result is the evaluation of the parsed tree. |
| Draft.Count | durations.py:207-209 | A unit's count is 0 when the token lacks it, else `int` of its text. |
| Draft.DurationOf | durations.py:202-209 | A Duration token holds the count of every unit. A count that is not a number raises ValueError. |
| Draft.DurationAdd | durations.py:238-244 | `Duration + Duration` is exact in microseconds. It is renormalised into canonical counts, negated for a negative sum. |
| Draft.DurationSub | durations.py:250-256 | `Duration - Duration` is exact in microseconds. It is renormalised into canonical counts, negated for a negative difference. |
| Draft.WholeMillis | durations.py:211-214 | Integer counts make a whole number of milliseconds. |
| Draft.Merge | durations.py:260-266 | When some unit is nonzero in both, the program ends in AttributeError, because CombinedException's constructor reads `after_token.type` of None. Otherwise the result is the unit-wise sum. |
| Draft.Raised | durations.py:66-90 | Raising CombinedException ends in AttributeError, and every other error passes through unchanged. |
| Draft.MergeIntended | durations.py:260-266 | The intended merge: CombinedException exactly when some unit is nonzero in both, otherwise the unit-wise sum. |
| Draft.MergeAgreesWithAdd | durations.py:238-266 | A merge adds the totals, and its renormalisation is the sum `+` computes. |
| Draft.Scale | durations.py:283-290 | `Duration * Factor` multiplies every count. |
| Draft.ScaleTotal | durations.py:283-290 | Multiplying every count by f multiplies the total duration by f. |
| Draft.SumDurations | durations.py:139-140 | `sum(durations, Duration())` is the canonical breakdown of the total of the run. |
| Draft.StampOf | durations.py:366-377 | A Datetime token's year, month, day, minute and second are the integers their digits spell, 0 when absent. The hour goes through the 12-hour clock rule. It succeeds exactly when every present field is digits. |
| Draft.CombineStamps | durations.py:379-386 | When a field is nonzero in both, the program ends in AttributeError. Otherwise each field comes from whichever stamp gives it, as the intended combine gives. |
| Draft.CombineStampsIntended | durations.py:379-386 | The intended combine: CombinedException exactly when a field is nonzero in both, otherwise each field from whichever stamp gives it. |
| Draft.CombinedNeverRaised | durations.py:87-90 | Two dates give AttributeError as written and CombinedException as intended. No pair of stamps makes the as-written combine raise CombinedException. |
| Draft.ToDateTime | durations.py:388-389 | The fields name an instant exactly when they form a valid date and time. Otherwise ValueError. |
| Draft.DateTimeRoundTrip | durations.py:388-393 | Reading an instant's fields back gives the instant, to the second. |
| Draft.Shifted | durations.py:405-417 | The shift succeeds exactly when the fields form an instant and the shifted instant stays in years 1..9999. It moves the instant by exactly the weeks-to-milliseconds part of the duration, forward or backward. |
| Draft.AddDuration | durations.py:404-423 | A failed shift is the result. Otherwise the result exists exactly when the day exists in the month moved by `12 * years + months` with carry into the year, and then the day and time of day are kept. Failures are ValueError or OverflowError. |
| Draft.MoveMonths | durations.py:416-421 | The month moves by 12 * years + months with carry into the year. This succeeds exactly when the day exists in the target month, and otherwise raises ValueError. |
| Draft.MonthsOnly | durations.py:404-423 | A duration of only years and months moves the month and keeps the day and time. |
| Draft.MonthsThereAndBack | durations.py:404-423 | Adding n months and then subtracting n months gives the stamp back whenever its day exists in both months. |
| Draft.MidJanuaryPlusMonth | durations.py:404-423 | `Y-01-15 + 1 month` is `Y-02-15`. |
| Draft.JanuaryThirtyFirst | durations.py:404-423 | `Y-01-31 + 1 month` raises ValueError, because February 31 does not exist. |
| Draft.Difference | durations.py:426-442 | `Datetime - Datetime` is the exact difference, as canonical counts, negated when the difference is negative. |
| Draft.WholeSecondsApart | durations.py:438-441 | Instants without microseconds are whole milliseconds apart, so the breakdown of their difference is exact. |
| Draft.Apply | durations.py:305-318 | The operators raise BadOperandException naming the operator, or fail through the calendar. Other operator characters fail the `assert False`. |
| Draft.OperatorTable | durations.py:238-345 | BadOperandException is raised exactly on the pairs with no method. Defined pairs fail only through a Datetime. `+` and `*` commute when no Datetime is involved. |
| Draft.DurationRun | durations.py:131-138 | The run of consecutive Duration tokens that starts at `start`, up to the first non-Duration token. |
| Draft.ParseFactor | durations.py:127-149 | A factor consumes at least one token. At the end of the tokens it is IndexError. |
| Draft.AdjacentOperands | durations.py:131-145 | A run of Duration tokens is one operand, their sum. A Datetime directly followed by another is one operand, the two combined, or the combine's AttributeError. |
| Draft.ParseTerm | durations.py:115-125 | A term consumes at least one token. |
| Draft.OneProductPerTerm | durations.py:115-125 | `a * b * c` leaves `* c` unparsed: ExtraDataException at token 3. |
| Draft.ParseExpr | durations.py:103-113 | An expression consumes at least one token. |
| Draft.ChainGroupsRight | durations.py:103-113 | A chain of `+` and `-` parses into the right-leaning tree. |
| Draft.SubtractionChain | durations.py:103-113 | `a - b - c` parses as `a - (b - c)` and evaluates to `a - b + c`. |
| Draft.Parse | durations.py:97-101 | Success exactly when the expression takes every token. Otherwise ExtraDataException at the first token left over, or the expression's error. |
| Draft.Evaluate | durations.py:305-318 | An operand evaluates to itself. |

## Left out

- The command line and REPL: `do_one`, `repl` and `main` (timecalc.py:744-776), and durations.py's `main`. These are I/O.
- durations.py's lexer: `gen_token` and the regex alternation. The draft parser is modelled on a token sequence, and its operand tokens on their captured fields (`Draft.DurationOf`, `Draft.StampOf`).
- Clock reads: `datetime.now()` and `date.today()` are the parameters `now` and `today`.
- The `re` engine, the `register` registry, `Lazy.lookup` and rule discovery through `dir`/`getattr` are left out. The terminals are hand-written recognisers, and the grammar is an explicit rule table in sorted order.
- Floats: Number values, `total_seconds()` scaling and durations.py's float counts are exact reals or integers. Rounding to the microsecond follows Python 2.7's `timedelta` constructor (`accum` and `round_to_long` in its `datetime` module). Each argument's whole microseconds are kept exactly. The fractions of a microsecond the arguments leave over are summed and rounded once, to the nearest integer, with an exact half going away from zero by the sign of that sum. So `parts2delta`, which passes three arguments, can break a tie against the total's sign when the amounts have mixed signs. `Duration * Number` and `Duration / Number` pass one argument, so they round the exact value itself. Python 3 would round a half to even. Float rounding error is not modelled: the arguments `parts2delta` computes, such as `years * 365 + days`, are exact reals here.
- Values.Apply: Python float division by a float zero raises ZeroDivisionError; the model does the same for an exact zero divisor. Rounding of non-integral products is approximated by exact reals.
- The `timedelta` bound of ±999999999 days is not modelled: Durations are unbounded integers. Only a Datetime leaving years 1..9999 overflows.
- Error rendering is left out: `ParserException.__str__`, `location_str`, `snippet_str`, and BadOperand's message.
- `Duration.__repr__` is left out, as are durations.py's `__str__`/`__repr__` of Duration, Datetime and Factor, which are cosmetic.
- Dead code: durations.py:444-454, the unused helpers at durations.py:6-50, and `Duration.merge` (durations.py:260-266), which nothing in durations.py calls; Draft.Merge and Draft.MergeIntended model it only to show the shared AttributeError route.
- Draft.Evaluate: `main` applies only an operator tree. A bare operand evaluates to itself, as `print res` shows it. The contract states only that case; the operator cases are covered by Draft.Apply and Draft.SubtractionChain.
- Errors from a `value()` whose token lacks a field its pattern always sets (TypeError, IndexError, UnboundLocalError) are collapsed into one error, MalformedToken. The recognisers never produce such tokens.
- Literals.TimeValue, Literals.DateValue: an impossible Date or Time token raises plain ValueError, not InvalidDate, because only `ISO8601.value` wraps the error. The model follows the code, so `2015/02/29` escapes as ValueError.
- `NumDuration` is not registered with `@register`, but it is reached only through `Factor.r1`, so the grammar table includes it directly.
- Engine.ParseRules: the contract states bounds and the invariant; ordered choice itself is stated by Engine.OrderedChoice.
- Engine.ParseNT: the contract states bounds and the invariant; what it builds is stated by Engine.OrderedChoice and Engine.Conclude.
- Grammar.BuildChained: the contract states the error kind and the invariant only; the tree it builds is described by Syntax.MakeAstLRIsLeftAssoc and Syntax.MakeAstLRKeepsOrder.
- Grammar.BuildChain: the contract states the error kind and the invariant only.
- Grammar.BuildDuration: the contract states the error kind only; the durations are checked by Values.PartsToDelta.
- Draft.ParseTerm: the contract states only that a token is consumed; Draft.OneProductPerTerm states the shape.
- Draft.ParseExpr: the contract states only that a token is consumed; Draft.ChainGroupsRight states the shape.
- Draft.ParseFactor: the contract states only that a token is consumed and the end-of-tokens error; Draft.AdjacentOperands states what it builds.
- Grammar.BuildFactor: the contract states the error kinds and the invariant only. The trees the Factor rules build are stated through the parser by GrammarRuns.NumberThen, GrammarRuns.BareNumber, GrammarRuns.NumberWithUnit and GrammarRuns.DatetimeNotNumber. The parenthesised rule is not stated separately.
- Grammar.BuildDatetime: the contract states validity and the error kinds only. The instants the Date and Time rules build are stated through the parser by GrammarRuns.DateFirst, GrammarRuns.DateThenTime, GrammarRuns.DateAlone, GrammarRuns.TimeFirst and GrammarRuns.TimeAlone. The DatetimeLiteral, ISO8601 and DateLiteral rules are stated only through Literals.DatetimeLiteralValue, Literals.IsoValue and Literals.DateLiteralValue.
- Grammar.BuildDatetimeEx: the contract states validity and the error kinds only. What DatetimeEx1 reads is stated by GrammarRuns.TimeAfter; DatetimeEx2's Date and DateLiteral rules only by Literals.DateValue and Literals.DateLiteralValue.
- Grammar.Parse: the contract ties the result to the Expression nonterminal only; the trees it gives are stated by GrammarRuns.ParsesAsSum and the lemmas it composes.
- Literals.TimeValue: the contract states validity only; the decoded time is stated by Literals.TimeValueOfFields.
- Literals.NumberValue: the contract ties the value to the decimal parser; the value of every decimal spelling is stated by Literals.NumberOfDecimal.
- RenderProperties.RenderHourAndHalf and RenderProperties.RenderMinusOneDay are stated on the counts, not on a count of microseconds; RenderProperties.RenderCanonical carries them to the durations of ninety minutes and minus one day.
- The parser lemmas in GrammarRuns cover chains of operators over any operands, numbers with no unit or one unit, and dates combined with times. A duration of several comma-separated parts and a parenthesised expression are parsed by the model but have no lemma of their own.

## Findings

| source | as written | input that shows it | evidently intended | confidence | as-written member | corrected member |
|---|---|---|---|---|---|---|
| timecalc.py:350-355 | The week date counts weeks from the Monday-to-Sunday week that holds 1 January: `date(year, 1, 1) + (week - 1) * 7` days, then moved to the written weekday. | `2016-W01-1` gives 2015-12-28, a Monday of the ISO 8601 week numbered 2015-W53. | Week 1 is the week holding 4 January (section 4.1.4 of ISO 8601:2004), so `2016-W01-1` is 2016-01-04. | not executed | Literals.IsoWeekDateAsWritten, Literals.WeekDateCounterexample | Literals.IsoWeekDate, Literals.IsoWeekDateRoundTrip |
| durations.py:68-71, 87-90 | `ParserException.__init__` sets `after_token` to None whatever it is given, and `CombinedException.__init__` then reads `self.after_token.type`. | Two adjacent date tokens, such as `2015/01/01 2016/02/02`: the program raises AttributeError. `merge` has the same fault but is never called. | `merge` and `combine` raise CombinedException naming the two clashing items. | not executed | Draft.Merge, Draft.CombineStamps, Draft.CombinedNeverRaised | Draft.MergeIntended, Draft.CombineStampsIntended |

The rest of the model follows the program as written in both rows: `Literals.IsoDate` decodes week dates by `Literals.IsoWeekDateAsWritten`, and `Draft` ends a clash in AttributeError. The corrected members state what the authors evidently intended, and the Findings lemmas compare the two.

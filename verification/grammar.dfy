/** The timecalc.py grammar: its nonterminals, their rules in the order
    `parse_nonterm` tries them (sorted by method name), and the rule builders,
    which decode literal tokens into values and assemble expression trees.

      Expression   := Term ExpressionD
      ExpressionD  := '-' Term ExpressionD | '+' Term ExpressionD | ε
      Term         := Factor TermD
      TermD        := '/' Factor TermD | '*' Factor TermD | ε
      Factor       := Datetime | Number NumDuration | '(' Expression ')'
      NumDuration  := Unit DurationEx | ε
      DurationEx   := ',' DurationPart DurationEx | ε
      DurationPart := Number Unit
      Datetime     := DatetimeLiteral | ISO8601 | Date DatetimeEx1
                    | DateLiteral DatetimeEx1 | Time DatetimeEx2
      DatetimeEx1  := Time | ε
      DatetimeEx2  := Date | DateLiteral | ε
*/
module Grammar {
  import opened Wrappers
  import opened Errors
  import opened Civil
  import opened Terminals
  import opened Lexer
  import Values
  import opened Literals
  import opened Syntax
  import opened Engine

  datatype NonTerminal =
    | Expression | ExpressionD | Term | TermD | Factor | NumDuration | DurationEx
    | DurationPart | Datetime | DatetimeEx1 | DatetimeEx2

  /** A `<number> <unit>` pair of a duration literal, as its two tokens and their indices. */
  datatype DurPart = DurPart(number: Token, numberPos: nat, unit: Token, unitPos: nat)

  /** What the rules build: an expression tree; an operator chain; an optional date
      or time; one or several duration pairs; or the unit and further pairs that may
      follow a number. */
  datatype Sem =
    | TreeS(ast: Ast)
    | ChainS(tail: Tail)
    | DateS(date: Option<Date>)
    | TimeS(time: Option<Time>)
    | PieceS(piece: DurPart)
    | PiecesS(pieces: seq<DurPart>)
    | UnitRestS(rest: Option<(Token, nat, seq<DurPart>)>)

  /** What every built value keeps: trees and chains have well-formed leaves, and an
      optional date or time is a valid one. */
  predicate SemOk(s: Sem) {
    match s
    case TreeS(a) => LeavesWellFormed(a)
    case ChainS(t) => TailWellFormed(t)
    case DateS(d) => d.Some? ==> ValidDate(d.value)
    case TimeS(t) => t.Some? ==> ValidTime(t.value)
    case _ => true
  }

  function Rules(n: NonTerminal): seq<Rule<NonTerminal>> {
    match n
    case Expression => [Rule("r", [NT(Term), NT(ExpressionD)])]
    case ExpressionD => [
      Rule("r0_m", [T(MinusT), NT(Term), NT(ExpressionD)]),
      Rule("r0_p", [T(PlusT), NT(Term), NT(ExpressionD)]),
      Rule("r1", [])]
    case Term => [Rule("r", [NT(Factor), NT(TermD)])]
    case TermD => [
      Rule("r0_d", [T(DivisionT), NT(Factor), NT(TermD)]),
      Rule("r0_m", [T(MultiplicationT), NT(Factor), NT(TermD)]),
      Rule("r1", [])]
    case Factor => [
      Rule("r0", [NT(Datetime)]),
      Rule("r1", [T(NumberT), NT(NumDuration)]),
      Rule("r2", [T(OpenParenT), NT(Expression), T(CloseParenT)])]
    case NumDuration => [
      Rule("r0", [T(UnitT), NT(DurationEx)]),
      Rule("r1", [])]
    case DurationEx => [
      Rule("r0", [T(CommaT), NT(DurationPart), NT(DurationEx)]),
      Rule("r1", [])]
    case DurationPart => [Rule("r", [T(NumberT), T(UnitT)])]
    case Datetime => [
      Rule("r0", [T(DatetimeLiteralT)]),
      Rule("r0b", [T(ISO8601T)]),
      Rule("r1", [T(DateT), NT(DatetimeEx1)]),
      Rule("r1b", [T(DateLiteralT), NT(DatetimeEx1)]),
      Rule("r2", [T(TimeT), NT(DatetimeEx2)])]
    case DatetimeEx1 => [
      Rule("r0", [T(TimeT)]),
      Rule("r1", [])]
    case DatetimeEx2 => [
      Rule("r0", [T(DateT)]),
      Rule("r0b", [T(DateLiteralT)]),
      Rule("r1", [])]
  }

  /** Python's string order. */
  predicate StrLess(a: string, b: string) {
    if |a| == 0 then |b| > 0
    else if |b| == 0 then false
    else a[0] < b[0] || (a[0] == b[0] && StrLess(a[1..], b[1..]))
  }

  /** `sorted(dir(nonterm))`: every nonterminal lists its rules in name order. */
  lemma RulesSorted(n: NonTerminal)
    ensures forall i, j :: 0 <= i < j < |Rules(n)| ==> StrLess(Rules(n)[i].name, Rules(n)[j].name)
  {
  }

  /** The nonterminals a rule may start with rank below the rule's own. */
  function Rank(n: NonTerminal): nat {
    match n
    case Expression => 4
    case Term => 3
    case Factor => 2
    case Datetime => 1
    case _ => 0
  }

  // ---- builders

  function OpOf(kind: Terminal): Values.Op {
    match kind
    case PlusT => Values.Plus
    case MinusT => Values.Minus
    case MultiplicationT => Values.Times
    case _ => Values.Divide
  }

  /** The value and unit of every pair, as `parts2delta` reads them. */
  function PairsOf(ps: seq<DurPart>): (r: Result<seq<Values.Pair>, Error>)
    ensures r.Success? ==>
      |r.value| == |ps| && forall k :: 0 <= k < |ps| ==> r.value[k].tokenPos == ps[k].unitPos
    ensures r.Failure? ==> r.error in {ValueErr, MalformedToken}
  {
    if |ps| == 0 then Success([])
    else
      var unit :- UnitValue(ps[0].unit.fields);
      var amount :- NumberValue(ps[0].number.fields);
      var rest :- PairsOf(ps[1..]);
      Success([Values.Pair(amount, unit, ps[0].unitPos)] + rest)
  }

  /** `Factor.r1`: a bare number, or `Duration.create` over its pairs. */
  function NumberFactor(number: Token, rest: Option<(Token, nat, seq<DurPart>)>, numberPos: nat): (r: Result<Sem, Error>)
    ensures r.Failure? ==> r.error.DuplicateUnit? || r.error in {ValueErr, MalformedToken}
    ensures r.Success? ==> r.value.TreeS? && r.value.ast.Leaf?
    ensures r.Success? ==> SemOk(r.value)
    ensures rest.None? ==>
      (r.Success? <==> "number" in number.fields && ParseDecimal(number.fields["number"]).Some?)
    ensures rest.None? && r.Success? ==>
      r.value.ast.v == Values.Number(ParseDecimal(number.fields["number"]).value)
    ensures r.Failure? && r.error.DuplicateUnit? ==> rest.Some?
    ensures rest.Some? && r.Success? ==>
      var pairs := PairsOf([DurPart(number, numberPos, rest.value.0, rest.value.1)] + rest.value.2);
      && r.value.ast.v.Duration? && pairs.Success?
      && Values.RoundsLeftover(Values.ExactMicros(pairs.value), Values.PartsLeftover(pairs.value), r.value.ast.v.micros)
  {
    match rest
    case None =>
      var x :- NumberValue(number.fields);
      Success(TreeS(Leaf(Values.Number(x))))
    case Some((unit, unitPos, more)) =>
      var pairs :- PairsOf([DurPart(number, numberPos, unit, unitPos)] + more);
      var micros :- Values.PartsToDelta(pairs);
      Success(TreeS(Leaf(Values.Duration(micros))))
  }

  // what a builder reads from its parts; None for a part of another shape, which
  // the rule's symbols rule out

  function TokAt(parts: seq<Part<Sem>>, k: nat): Option<(Token, nat)> {
    if k < |parts| && parts[k].Tok? then Some((parts[k].token, parts[k].index)) else None
  }

  function TreeAt(parts: seq<Part<Sem>>, k: nat): (r: Option<Ast>)
    ensures Sound(SemOk, parts) && r.Some? ==> LeavesWellFormed(r.value)
  {
    if k < |parts| && parts[k].Sub? && parts[k].value.TreeS? then Some(parts[k].value.ast) else None
  }

  function ChainAt(parts: seq<Part<Sem>>, k: nat): (r: Option<Tail>)
    ensures Sound(SemOk, parts) && r.Some? ==> TailWellFormed(r.value)
  {
    if k < |parts| && parts[k].Sub? && parts[k].value.ChainS? then Some(parts[k].value.tail) else None
  }

  function TimeAt(parts: seq<Part<Sem>>, k: nat): (r: Option<Option<Time>>)
    ensures Sound(SemOk, parts) && r.Some? ==> (r.value.Some? ==> ValidTime(r.value.value))
  {
    if k < |parts| && parts[k].Sub? && parts[k].value.TimeS? then Some(parts[k].value.time) else None
  }

  function DateAt(parts: seq<Part<Sem>>, k: nat): (r: Option<Option<Date>>)
    ensures Sound(SemOk, parts) && r.Some? ==> (r.value.Some? ==> ValidDate(r.value.value))
  {
    if k < |parts| && parts[k].Sub? && parts[k].value.DateS? then Some(parts[k].value.date) else None
  }

  function PieceAt(parts: seq<Part<Sem>>, k: nat): Option<DurPart> {
    if k < |parts| && parts[k].Sub? && parts[k].value.PieceS? then Some(parts[k].value.piece) else None
  }

  function PiecesAt(parts: seq<Part<Sem>>, k: nat): Option<seq<DurPart>> {
    if k < |parts| && parts[k].Sub? && parts[k].value.PiecesS? then Some(parts[k].value.pieces) else None
  }

  function UnitRestAt(parts: seq<Part<Sem>>, k: nat): Option<Option<(Token, nat, seq<DurPart>)>> {
    if k < |parts| && parts[k].Sub? && parts[k].value.UnitRestS? then Some(parts[k].value.rest) else None
  }

  /** `Term.r` and `Expression.r`: `make_ast_lr(left, rest)`. */
  function BuildChained(parts: seq<Part<Sem>>): (r: Result<Sem, Error>)
    ensures r.Failure? ==> r.error == MalformedToken
    ensures Sound(SemOk, parts) && r.Success? ==> SemOk(r.value)
  {
    match (TreeAt(parts, 0), ChainAt(parts, 1))
    case (Some(left), Some(rest)) =>
      assert Sound(SemOk, parts) ==> LeavesWellFormed(MakeAstLR(left, rest)) by {
        if Sound(SemOk, parts) { MakeAstLRWellFormed(left, rest); }
      }
      Success(TreeS(MakeAstLR(left, rest)))
    case _ => Failure(MalformedToken)
  }

  /** `TermD` and `ExpressionD`: `[op, right, rest]`, or nothing for the empty rule. */
  function BuildChain(parts: seq<Part<Sem>>): (r: Result<Sem, Error>)
    ensures r.Failure? ==> r.error == MalformedToken
    ensures Sound(SemOk, parts) && r.Success? ==> SemOk(r.value)
  {
    if |parts| == 0 then Success(ChainS(End))
    else
      match (TokAt(parts, 0), TreeAt(parts, 1), ChainAt(parts, 2))
      case (Some((op, p)), Some(right), Some(rest)) => Success(ChainS(More(OpOf(op.kind), p, right, rest)))
      case _ => Failure(MalformedToken)
  }

  function BuildFactor(i: nat, parts: seq<Part<Sem>>): (r: Result<Sem, Error>)
    ensures r.Failure? ==> r.error.DuplicateUnit? || r.error in {ValueErr, MalformedToken}
    ensures Sound(SemOk, parts) && r.Success? ==> SemOk(r.value)
  {
    if i == 0 then
      match TreeAt(parts, 0)
      case Some(d) => Success(TreeS(d))
      case None => Failure(MalformedToken)
    else if i == 1 then
      match (TokAt(parts, 0), UnitRestAt(parts, 1))
      case (Some((number, p)), Some(rest)) => NumberFactor(number, rest, p)
      case _ => Failure(MalformedToken)
    else
      match TreeAt(parts, 1)
      case Some(e) => Success(TreeS(e))
      case None => Failure(MalformedToken)
  }

  function BuildDuration(n: NonTerminal, parts: seq<Part<Sem>>): (r: Result<Sem, Error>)
    ensures r.Failure? ==> r.error == MalformedToken
    ensures r.Success? ==> SemOk(r.value)
  {
    if |parts| == 0 then
      Success(if n == NumDuration then UnitRestS(None) else PiecesS([]))
    else if n == NumDuration then
      match (TokAt(parts, 0), PiecesAt(parts, 1))
      case (Some((unit, p)), Some(more)) => Success(UnitRestS(Some((unit, p, more))))
      case _ => Failure(MalformedToken)
    else if n == DurationEx then
      match (PieceAt(parts, 1), PiecesAt(parts, 2))
      case (Some(piece), Some(more)) => Success(PiecesS([piece] + more))
      case _ => Failure(MalformedToken)
    else
      match (TokAt(parts, 0), TokAt(parts, 1))
      case (Some((number, np)), Some((unit, up))) => Success(PieceS(DurPart(number, np, unit, up)))
      case _ => Failure(MalformedToken)
  }

  function Instant(dt: DateTime): Sem {
    TreeS(Leaf(Values.Datetime(dt)))
  }

  /** The rules of Datetime, in order: `now`/`epoch`, ISO 8601, a date with an
      optional time, `today` with an optional time, a time with an optional date. */
  function BuildDatetime(now: DateTime, today: Date, i: nat, parts: seq<Part<Sem>>): (r: Result<Sem, Error>)
    ensures r.Failure? ==> r.error.InvalidDate? || r.error in {ValueErr, Overflow, MalformedToken}
    ensures Valid(now) && ValidDate(today) && Sound(SemOk, parts) && r.Success? ==> SemOk(r.value)
  {
    match TokAt(parts, 0)
    case None => Failure(MalformedToken)
    case Some((tok, p)) =>
      if i == 0 then
        EpochOrdinal();
        var dt :- DatetimeLiteralValue(tok.fields, now);
        Success(Instant(dt))
      else if i == 1 then
        var dt :- IsoValue(tok.fields, p);
        Success(Instant(dt))
      else if i == 2 || i == 3 then
        match TimeAt(parts, 1)
        case None => Failure(MalformedToken)
        case Some(time) =>
          var d :- if i == 2 then DateValue(tok.fields) else DateLiteralValue(tok.fields, today);
          Success(Instant(Combine(Some(d), time, today)))
      else
        match DateAt(parts, 1)
        case None => Failure(MalformedToken)
        case Some(date) =>
          var t :- TimeValue(tok.fields);
          Success(Instant(Combine(date, Some(t), today)))
  }

  /** DatetimeEx1 (a time or nothing) and DatetimeEx2 (a date, `today` or nothing). */
  function BuildDatetimeEx(n: NonTerminal, today: Date, i: nat, parts: seq<Part<Sem>>): (r: Result<Sem, Error>)
    ensures r.Failure? ==> r.error in {ValueErr, MalformedToken}
    ensures ValidDate(today) && r.Success? ==> SemOk(r.value)
  {
    if |parts| == 0 then
      Success(if n == DatetimeEx1 then TimeS(None) else DateS(None))
    else
      match TokAt(parts, 0)
      case None => Failure(MalformedToken)
      case Some((tok, _)) =>
        if n == DatetimeEx1 then
          var t :- TimeValue(tok.fields);
          Success(TimeS(Some(t)))
        else
          var d :- if i == 0 then DateValue(tok.fields) else DateLiteralValue(tok.fields, today);
          Success(DateS(Some(d)))
  }

  /** The rule builders (`cb(*parts)`), given the clock readings `now` and `today`;
      none raises a syntax error of its own. */
  function Build(now: DateTime, today: Date, n: NonTerminal, i: nat, parts: seq<Part<Sem>>): (r: Result<Sem, Error>)
    ensures r.Failure? ==> !r.error.ParserSyntaxError?
    ensures Valid(now) && ValidDate(today) && Sound(SemOk, parts) && r.Success? ==> SemOk(r.value)
  {
    match n
    case Expression => BuildChained(parts)
    case Term => BuildChained(parts)
    case ExpressionD => BuildChain(parts)
    case TermD => BuildChain(parts)
    case Factor => BuildFactor(i, parts)
    case NumDuration => BuildDuration(n, parts)
    case DurationEx => BuildDuration(n, parts)
    case DurationPart => BuildDuration(n, parts)
    case Datetime => BuildDatetime(now, today, i, parts)
    case DatetimeEx1 => BuildDatetimeEx(n, today, i, parts)
    case DatetimeEx2 => BuildDatetimeEx(n, today, i, parts)
  }

  function TheGrammar(now: DateTime, today: Date): Grammar<NonTerminal, Sem> {
    Grammar(Rules, Rank, (n, i, parts) => Build(now, today, n, i, parts), SemOk)
  }

  lemma GrammarWellFormed(now: DateTime, today: Date)
    requires Valid(now) && ValidDate(today)
    ensures WellFormed(TheGrammar(now, today))
  {
    var g := TheGrammar(now, today);
    forall n: NonTerminal, i, j | 0 <= i < |g.rules(n)| && 0 <= j < |g.rules(n)[i].syms| && g.rules(n)[i].syms[j].NT?
      ensures g.rank(g.rules(n)[i].syms[j].n) < g.rank(n) || Guarded(g.rules(n)[i].syms, j)
    {
      if g.rules(n)[i].syms[0].T? {
        assert Guarded(g.rules(n)[i].syms, j);
      }
    }
  }

  /** `do_parser(GRAMMAR_ENTRY, tokens)`: the expression tree of the tokens, given
      the clock readings `now` and `today`. */
  function Parse(toks: seq<Token>, now: DateTime, today: Date): (r: Result<Ast, Error>)
    requires Valid(now) && ValidDate(today)
    ensures WellFormed(TheGrammar(now, today))
    ensures r.Success? ==>
      ParseNT(TheGrammar(now, today), toks, Expression, 0) == Parsed(|toks|, TreeS(r.value))
      && LeavesWellFormed(r.value)
    ensures r.Failure? && r.error.ParserSyntaxError? ==> r.error.tokenPos < |toks|
  {
    GrammarWellFormed(now, today);
    var r := ParseAll(TheGrammar(now, today), toks, Expression);
    if r.Failure? then Failure(r.error)
    else if r.value.TreeS? then Success(r.value.ast)
    else Failure(MalformedToken)
  }
}

/** What the timecalc.py grammar makes of whole token sequences: each empty rule
    applies exactly where its nonterminal's other rules cannot start, a Term
    collects `*` and `/` before an Expression collects `+` and `-`, and both
    chains come out left-associative. */
module GrammarRuns {
  import opened Wrappers
  import opened Errors
  import opened Civil
  import opened Terminals
  import opened Lexer
  import opened Syntax
  import opened Engine
  import opened Grammar
  import opened Breakdown
  import opened Literals
  import Values
  import Evaluator

  /** The grammar with the clock readings now and today, known to be well-formed. */
  function Timecalc(now: DateTime, today: Date): (g: Engine.Grammar<NonTerminal, Sem>)
    requires Valid(now) && ValidDate(today)
    ensures WellFormed(g) && g == TheGrammar(now, today)
  {
    GrammarWellFormed(now, today);
    TheGrammar(now, today)
  }

  // ---- the empty rules

  /** TermD builds the empty chain exactly where no `/` or `*` follows. */
  lemma {:induction false} TermDEnd(now: DateTime, today: Date, toks: seq<Token>, pos: nat)
    requires Valid(now) && ValidDate(today) && pos <= |toks|
    requires pos == |toks| || toks[pos].kind !in {DivisionT, MultiplicationT}
    ensures ParseNT(Timecalc(now, today), toks, TermD, pos) == Parsed(pos, ChainS(End))
  {
    var g := Timecalc(now, today);
    SkipRule(g, toks, TermD, 0, pos);
    SkipRule(g, toks, TermD, 1, pos);
    EmptyRule(g, toks, TermD, 2, pos);
  }

  /** ExpressionD builds the empty chain exactly where no `-` or `+` follows. */
  lemma {:induction false} ExpressionDEnd(now: DateTime, today: Date, toks: seq<Token>, pos: nat)
    requires Valid(now) && ValidDate(today) && pos <= |toks|
    requires pos == |toks| || toks[pos].kind !in {MinusT, PlusT}
    ensures ParseNT(Timecalc(now, today), toks, ExpressionD, pos) == Parsed(pos, ChainS(End))
  {
    var g := Timecalc(now, today);
    SkipRule(g, toks, ExpressionD, 0, pos);
    SkipRule(g, toks, ExpressionD, 1, pos);
    EmptyRule(g, toks, ExpressionD, 2, pos);
  }

  // ---- one operator of a chain

  /** `op Factor TermD`: an operator `/` or `*`, the factor after it, and the rest
      of the chain become one more link of the chain. */
  lemma {:induction false} TermDMore(now: DateTime, today: Date, toks: seq<Token>, pos: nat, q: nat, r: nat, right: Ast, rest: Tail)
    requires Valid(now) && ValidDate(today) && pos < |toks|
    requires toks[pos].kind in {DivisionT, MultiplicationT}
    requires ParseNT(Timecalc(now, today), toks, Factor, pos + 1) == Parsed(q, TreeS(right))
    requires q <= |toks| && ParseNT(Timecalc(now, today), toks, TermD, q) == Parsed(r, ChainS(rest))
    ensures ParseNT(Timecalc(now, today), toks, TermD, pos)
      == Parsed(r, ChainS(More(OpOf(toks[pos].kind), pos, right, rest)))
  {
    var g := Timecalc(now, today);
    var i := if toks[pos].kind == DivisionT then 0 else 1;
    if i == 1 {
      SkipRule(g, toks, TermD, 0, pos);
    }
    TokenThenTwoRule(g, toks, TermD, i, pos, Factor, q, TreeS(right), TermD, r, ChainS(rest));
  }

  /** `op Term ExpressionD`: an operator `-` or `+`, the term after it, and the
      rest of the chain become one more link of the chain. */
  lemma {:induction false} ExpressionDMore(now: DateTime, today: Date, toks: seq<Token>, pos: nat, q: nat, r: nat, right: Ast, rest: Tail)
    requires Valid(now) && ValidDate(today) && pos < |toks|
    requires toks[pos].kind in {MinusT, PlusT}
    requires ParseNT(Timecalc(now, today), toks, Term, pos + 1) == Parsed(q, TreeS(right))
    requires q <= |toks| && ParseNT(Timecalc(now, today), toks, ExpressionD, q) == Parsed(r, ChainS(rest))
    ensures ParseNT(Timecalc(now, today), toks, ExpressionD, pos)
      == Parsed(r, ChainS(More(OpOf(toks[pos].kind), pos, right, rest)))
  {
    var g := Timecalc(now, today);
    var i := if toks[pos].kind == MinusT then 0 else 1;
    if i == 1 {
      SkipRule(g, toks, ExpressionD, 0, pos);
    }
    TokenThenTwoRule(g, toks, ExpressionD, i, pos, Term, q, TreeS(right), ExpressionD, r, ChainS(rest));
  }

  // ---- operand and chain

  /** `Factor TermD`: a Term is `make_ast_lr` of its first factor and its chain. */
  lemma {:induction false} TermOf(now: DateTime, today: Date, toks: seq<Token>, pos: nat, q: nat, r: nat, first: Ast, rest: Tail)
    requires Valid(now) && ValidDate(today) && pos <= |toks|
    requires ParseNT(Timecalc(now, today), toks, Factor, pos) == Parsed(q, TreeS(first))
    requires q <= |toks| && ParseNT(Timecalc(now, today), toks, TermD, q) == Parsed(r, ChainS(rest))
    ensures ParseNT(Timecalc(now, today), toks, Term, pos) == Parsed(r, TreeS(MakeAstLR(first, rest)))
  {    TwoRule(Timecalc(now, today), toks, Term, 0, pos, Factor, q, TreeS(first), TermD, r, ChainS(rest));
  }

  /** `Term ExpressionD`: an Expression is `make_ast_lr` of its first term and its chain. */
  lemma {:induction false} ExpressionOf(now: DateTime, today: Date, toks: seq<Token>, pos: nat, q: nat, r: nat, first: Ast, rest: Tail)
    requires Valid(now) && ValidDate(today) && pos <= |toks|
    requires ParseNT(Timecalc(now, today), toks, Term, pos) == Parsed(q, TreeS(first))
    requires q <= |toks| && ParseNT(Timecalc(now, today), toks, ExpressionD, q) == Parsed(r, ChainS(rest))
    ensures ParseNT(Timecalc(now, today), toks, Expression, pos) == Parsed(r, TreeS(MakeAstLR(first, rest)))
  {    TwoRule(Timecalc(now, today), toks, Expression, 0, pos, Term, q, TreeS(first), ExpressionD, r, ChainS(rest));
  }

  // ---- factors that start with a number

  /** No Datetime rule starts with a number. */
  lemma {:induction false} DatetimeNotNumber(now: DateTime, today: Date, toks: seq<Token>, pos: nat)
    requires Valid(now) && ValidDate(today) && pos < |toks| && toks[pos].kind == NumberT
    ensures ParseNT(Timecalc(now, today), toks, Datetime, pos) == Soft
  {
    var g := Timecalc(now, today);
    SkipRule(g, toks, Datetime, 0, pos);
    SkipRule(g, toks, Datetime, 1, pos);
    SkipRule(g, toks, Datetime, 2, pos);
    SkipRule(g, toks, Datetime, 3, pos);
    SkipRule(g, toks, Datetime, 4, pos);
  }

  /** `Factor.r1`: a number, then whatever NumDuration makes of the tokens after
      it, passed through the builder. */
  lemma {:induction false} NumberThen(now: DateTime, today: Date, toks: seq<Token>, pos: nat, q: nat,
                   rest: Option<(Token, nat, seq<DurPart>)>)
    requires Valid(now) && ValidDate(today) && pos < |toks| && toks[pos].kind == NumberT
    requires ParseNT(Timecalc(now, today), toks, NumDuration, pos + 1) == Parsed(q, UnitRestS(rest))
    ensures ParseNT(Timecalc(now, today), toks, Factor, pos)
      == match NumberFactor(toks[pos], rest, pos)
         case Success(v) => Parsed(q, v)
         case Failure(e) => Hard(e)
  {
    var g := Timecalc(now, today);
    DatetimeNotNumber(now, today, toks, pos);
    SkipSubRule(g, toks, Factor, 0, pos);
    TokenThenRule(g, toks, Factor, 1, pos, NumDuration, q, UnitRestS(rest));
  }

  /** NumDuration builds nothing where no unit follows. */
  lemma {:induction false} NoUnit(now: DateTime, today: Date, toks: seq<Token>, pos: nat)
    requires Valid(now) && ValidDate(today) && pos <= |toks|
    requires pos == |toks| || toks[pos].kind != UnitT
    ensures ParseNT(Timecalc(now, today), toks, NumDuration, pos) == Parsed(pos, UnitRestS(None))
  {
    var g := Timecalc(now, today);
    SkipRule(g, toks, NumDuration, 0, pos);
    EmptyRule(g, toks, NumDuration, 1, pos);
  }

  /** DurationEx builds no further pairs where no comma follows. */
  lemma {:induction false} NoComma(now: DateTime, today: Date, toks: seq<Token>, pos: nat)
    requires Valid(now) && ValidDate(today) && pos <= |toks|
    requires pos == |toks| || toks[pos].kind != CommaT
    ensures ParseNT(Timecalc(now, today), toks, DurationEx, pos) == Parsed(pos, PiecesS([]))
  {
    var g := Timecalc(now, today);
    SkipRule(g, toks, DurationEx, 0, pos);
    EmptyRule(g, toks, DurationEx, 1, pos);
  }

  /** A unit not followed by a comma is a NumDuration of one unit. */
  lemma {:induction false} OneUnit(now: DateTime, today: Date, toks: seq<Token>, pos: nat)
    requires Valid(now) && ValidDate(today) && pos < |toks| && toks[pos].kind == UnitT
    requires pos + 1 == |toks| || toks[pos + 1].kind != CommaT
    ensures ParseNT(Timecalc(now, today), toks, NumDuration, pos)
      == Parsed(pos + 1, UnitRestS(Some((toks[pos], pos, []))))
  {    NoComma(now, today, toks, pos + 1);
    TokenThenRule(Timecalc(now, today), toks, NumDuration, 0, pos, DurationEx, pos + 1, PiecesS([]));
  }

  /** A number not followed by a unit is a Factor on its own. */
  lemma {:induction false} BareNumber(now: DateTime, today: Date, toks: seq<Token>, pos: nat)
    requires Valid(now) && ValidDate(today) && pos < |toks| && toks[pos].kind == NumberT
    requires pos + 1 == |toks| || toks[pos + 1].kind != UnitT
    ensures ParseNT(Timecalc(now, today), toks, Factor, pos)
      == match NumberFactor(toks[pos], None, pos)
         case Success(v) => Parsed(pos + 1, v)
         case Failure(e) => Hard(e)
  {
    NoUnit(now, today, toks, pos + 1);
    NumberThen(now, today, toks, pos, pos + 1, None);
  }

  /** A number and a unit not followed by a comma are a Factor over a single
      `<number> <unit>` pair. */
  lemma {:induction false} NumberWithUnit(now: DateTime, today: Date, toks: seq<Token>, pos: nat)
    requires Valid(now) && ValidDate(today) && pos + 1 < |toks|
    requires toks[pos].kind == NumberT && toks[pos + 1].kind == UnitT
    requires pos + 2 == |toks| || toks[pos + 2].kind != CommaT
    ensures ParseNT(Timecalc(now, today), toks, Factor, pos)
      == match NumberFactor(toks[pos], Some((toks[pos + 1], pos + 1, [])), pos)
         case Success(v) => Parsed(pos + 2, v)
         case Failure(e) => Hard(e)
  {
    OneUnit(now, today, toks, pos + 1);
    NumberThen(now, today, toks, pos, pos + 2, Some((toks[pos + 1], pos + 1, [])));
  }

  // ---- whole chains

  /** Where the operand after the k-th operator ends: at the next operator, or at
      the end of the chain. */
  function NextOp(ops: seq<nat>, k: nat, end: nat): nat {
    if k + 1 < |ops| then ops[k + 1] else end
  }

  /** The chain TermD or ExpressionD builds from the operators at ops, each
      followed by its operand: the links in the order they were written. */
  function ChainOf(toks: seq<Token>, ops: seq<nat>, operands: seq<Ast>): (t: Tail)
    requires |ops| == |operands| && forall k :: 0 <= k < |ops| ==> ops[k] < |toks|
    ensures |Steps(t)| == |ops|
    ensures forall k :: 0 <= k < |ops| ==> Steps(t)[k] == (OpOf(toks[ops[k]].kind), ops[k], operands[k])
    decreases |ops|
  {
    if |ops| == 0 then End
    else More(OpOf(toks[ops[0]].kind), ops[0], operands[0], ChainOf(toks, ops[1..], operands[1..]))
  }

  /** The tokens from ops[0] to end are operators of the given kinds, each followed
      by an operand that `operand` parses up to the next operator. */
  predicate Alternates(now: DateTime, today: Date, toks: seq<Token>, kinds: set<Terminal>, operand: NonTerminal,
                       ops: seq<nat>, operands: seq<Ast>, end: nat)
    requires Valid(now) && ValidDate(today)
  {
    && |ops| == |operands| && end <= |toks|
    && forall k :: 0 <= k < |ops| ==>
         && ops[k] < NextOp(ops, k, end) <= end
         && toks[ops[k]].kind in kinds
         && ParseNT(Timecalc(now, today), toks, operand, ops[k] + 1) == Parsed(NextOp(ops, k, end), TreeS(operands[k]))
  }

  /** Dropping the first operator of an alternation leaves one. */
  lemma {:induction false} AlternatesTail(now: DateTime, today: Date, toks: seq<Token>, kinds: set<Terminal>, operand: NonTerminal,
                       ops: seq<nat>, operands: seq<Ast>, end: nat)
    requires Valid(now) && ValidDate(today)
    requires Alternates(now, today, toks, kinds, operand, ops, operands, end) && |ops| > 0
    ensures Alternates(now, today, toks, kinds, operand, ops[1..], operands[1..], end)
  {
    forall k | 0 <= k < |ops| - 1
      ensures NextOp(ops[1..], k, end) == NextOp(ops, k + 1, end)
    {
    }
  }

  /** The first operator of an alternation and the operand after it. */
  lemma AlternatesHead(now: DateTime, today: Date, toks: seq<Token>, kinds: set<Terminal>, operand: NonTerminal,
                       ops: seq<nat>, operands: seq<Ast>, end: nat)
    requires Valid(now) && ValidDate(today)
    requires Alternates(now, today, toks, kinds, operand, ops, operands, end) && |ops| > 0
    ensures ops[0] < NextOp(ops, 0, end) <= end <= |toks| && toks[ops[0]].kind in kinds
    ensures ParseNT(Timecalc(now, today), toks, operand, ops[0] + 1) == Parsed(NextOp(ops, 0, end), TreeS(operands[0]))
  {
  }

  /** ExpressionD over `op Term op Term ...` up to a token that is not `-` or `+`:
      the chain of all the operators and terms, in order. */
  lemma {:induction false} AdditiveChain(now: DateTime, today: Date, toks: seq<Token>, ops: seq<nat>, terms: seq<Ast>, end: nat)
    requires Valid(now) && ValidDate(today)
    requires Alternates(now, today, toks, {MinusT, PlusT}, Term, ops, terms, end)
    requires end == |toks| || toks[end].kind !in {MinusT, PlusT}
    ensures ParseNT(Timecalc(now, today), toks, ExpressionD, if |ops| == 0 then end else ops[0])
      == Parsed(end, ChainS(ChainOf(toks, ops, terms)))
    decreases |ops|
  {
    if |ops| == 0 {
      ExpressionDEnd(now, today, toks, end);
    } else {
      AlternatesTail(now, today, toks, {MinusT, PlusT}, Term, ops, terms, end);
      AdditiveChain(now, today, toks, ops[1..], terms[1..], end);
      var g := Timecalc(now, today);
      var q := NextOp(ops, 0, end);
      var rest := ChainOf(toks, ops[1..], terms[1..]);
      assert q == if |ops[1..]| == 0 then end else ops[1..][0];
      assert ParseNT(g, toks, ExpressionD, q) == Parsed(end, ChainS(rest));
      AlternatesHead(now, today, toks, {MinusT, PlusT}, Term, ops, terms, end);
      ExpressionDMore(now, today, toks, ops[0], q, end, terms[0], rest);
      assert ChainOf(toks, ops, terms) == More(OpOf(toks[ops[0]].kind), ops[0], terms[0], rest);
    }
  }

  /** TermD over `op Factor op Factor ...` up to a token that is not `/` or `*`:
      the chain of all the operators and factors, in order. */
  lemma {:induction false} ProductChain(now: DateTime, today: Date, toks: seq<Token>, ops: seq<nat>, factors: seq<Ast>, end: nat)
    requires Valid(now) && ValidDate(today)
    requires Alternates(now, today, toks, {DivisionT, MultiplicationT}, Factor, ops, factors, end)
    requires end == |toks| || toks[end].kind !in {DivisionT, MultiplicationT}
    ensures ParseNT(Timecalc(now, today), toks, TermD, if |ops| == 0 then end else ops[0])
      == Parsed(end, ChainS(ChainOf(toks, ops, factors)))
    decreases |ops|
  {
    if |ops| == 0 {
      TermDEnd(now, today, toks, end);
    } else {
      AlternatesTail(now, today, toks, {DivisionT, MultiplicationT}, Factor, ops, factors, end);
      ProductChain(now, today, toks, ops[1..], factors[1..], end);
      var g := Timecalc(now, today);
      var q := NextOp(ops, 0, end);
      var rest := ChainOf(toks, ops[1..], factors[1..]);
      assert q == if |ops[1..]| == 0 then end else ops[1..][0];
      assert ParseNT(g, toks, TermD, q) == Parsed(end, ChainS(rest));
      AlternatesHead(now, today, toks, {DivisionT, MultiplicationT}, Factor, ops, factors, end);
      TermDMore(now, today, toks, ops[0], q, end, factors[0], rest);
      assert ChainOf(toks, ops, factors) == More(OpOf(toks[ops[0]].kind), ops[0], factors[0], rest);
    }
  }

  // ---- what a number factor denotes

  /** `Factor.r1` with no unit is the number itself. */
  lemma {:induction false} BareNumberValue(number: Token, numberPos: nat, x: real)
    requires NumberValue(number.fields) == Success(x)
    ensures NumberFactor(number, None, numberPos) == Success(TreeS(Leaf(Values.Number(x))))
  {
  }

  /** A single pair with a whole amount is that many of its unit, exactly. */
  lemma {:induction false} SinglePair(x: int, u: Unit, unitPos: nat)
    ensures Values.PartsToDelta([Values.Pair(x as real, u, unitPos)]) == Success(x * UnitMicros(u))
  {
    var pairs := [Values.Pair(x as real, u, unitPos)];
    assert !Values.RepeatsEarlier(pairs, 0);
    assert Values.ExactMicros(pairs) == (x * UnitMicros(u)) as real by {
      assert Values.ExactMicros(pairs[..0]) == 0.0;
    }
    assert ((x * UnitMicros(u)) as real).Floor == x * UnitMicros(u);
  }

  /** `Factor.r1` over one pair with a whole amount is that many of the unit, exactly. */
  lemma {:induction false} OneUnitValue(number: Token, numberPos: nat, unit: Token, unitPos: nat, x: int, u: Unit)
    requires NumberValue(number.fields) == Success(x as real) && UnitValue(unit.fields) == Success(u)
    ensures NumberFactor(number, Some((unit, unitPos, [])), numberPos)
      == Success(TreeS(Leaf(Values.Duration(x * UnitMicros(u)))))
  {
    var pairs := [Values.Pair(x as real, u, unitPos)];
    var ps := [DurPart(number, numberPos, unit, unitPos)];
    assert ps[1..] == [] && pairs + [] == pairs;
    assert PairsOf(ps) == Success(pairs);
    SinglePair(x, u, unitPos);
  }

  // ---- whole expressions

  /** A Term is its first factor and the `/` and `*` chain after it, grouped to the left. */
  lemma {:induction false} TermIsProduct(now: DateTime, today: Date, toks: seq<Token>, pos: nat, first: Ast, start: nat,
                      ops: seq<nat>, factors: seq<Ast>, end: nat)
    requires Valid(now) && ValidDate(today) && pos <= |toks|
    requires ParseNT(Timecalc(now, today), toks, Factor, pos) == Parsed(start, TreeS(first))
    requires start == if |ops| == 0 then end else ops[0]
    requires Alternates(now, today, toks, {DivisionT, MultiplicationT}, Factor, ops, factors, end)
    requires end == |toks| || toks[end].kind !in {DivisionT, MultiplicationT}
    ensures ParseNT(Timecalc(now, today), toks, Term, pos)
      == Parsed(end, TreeS(LeftAssoc(first, Steps(ChainOf(toks, ops, factors)))))
  {
    ProductChain(now, today, toks, ops, factors, end);
    TermOf(now, today, toks, pos, start, end, first, ChainOf(toks, ops, factors));
    MakeAstLRIsLeftAssoc(first, ChainOf(toks, ops, factors));
  }

  /** The whole token sequence as a sum: the first Term, then `-` and `+` each
      followed by a Term up to the end, parse to the left-grouped tree of them all. */
  lemma {:induction false} ParsesAsSum(now: DateTime, today: Date, toks: seq<Token>, first: Ast, start: nat, ops: seq<nat>, terms: seq<Ast>)
    requires Valid(now) && ValidDate(today)
    requires ParseNT(Timecalc(now, today), toks, Term, 0) == Parsed(start, TreeS(first))
    requires start == if |ops| == 0 then |toks| else ops[0]
    requires Alternates(now, today, toks, {MinusT, PlusT}, Term, ops, terms, |toks|)
    ensures Grammar.Parse(toks, now, today) == Success(LeftAssoc(first, Steps(ChainOf(toks, ops, terms))))
  {
    AdditiveChain(now, today, toks, ops, terms, |toks|);
    ExpressionOf(now, today, toks, 0, start, |toks|, first, ChainOf(toks, ops, terms));
    MakeAstLRIsLeftAssoc(first, ChainOf(toks, ops, terms));
  }

  /** A number and a unit followed by none of `,`, `/` and `*` are a Term on their own. */
  lemma {:induction false} DurationTerm(now: DateTime, today: Date, toks: seq<Token>, pos: nat, x: int, u: Unit)
    requires Valid(now) && ValidDate(today) && pos + 1 < |toks|
    requires toks[pos].kind == NumberT && toks[pos + 1].kind == UnitT
    requires pos + 2 == |toks| || toks[pos + 2].kind !in {CommaT, DivisionT, MultiplicationT}
    requires NumberValue(toks[pos].fields) == Success(x as real) && UnitValue(toks[pos + 1].fields) == Success(u)
    ensures ParseNT(Timecalc(now, today), toks, Term, pos)
      == Parsed(pos + 2, TreeS(Leaf(Values.Duration(x * UnitMicros(u)))))
  {
    NumberWithUnit(now, today, toks, pos);
    OneUnitValue(toks[pos], pos, toks[pos + 1], pos + 1, x, u);
    TermIsProduct(now, today, toks, pos, Leaf(Values.Duration(x * UnitMicros(u))), pos + 2, [], [], pos + 2);
  }

  /** The kinds of the tokens, in order. */
  function Kinds(toks: seq<Token>): (r: seq<Terminal>)
    ensures |r| == |toks| && forall k :: 0 <= k < |toks| ==> r[k] == toks[k].kind
  {
    if |toks| == 0 then [] else [toks[0].kind] + Kinds(toks[1..])
  }

  const Hour: int := 3600 * 1000000

  /** One operator and its operand make an alternation. */
  lemma {:induction false} AlternatesOne(now: DateTime, today: Date, toks: seq<Token>, kinds: set<Terminal>,
                                         operand: NonTerminal, o: nat, t: Ast, end: nat)
    requires Valid(now) && ValidDate(today)
    requires o < end <= |toks| && toks[o].kind in kinds
    requires ParseNT(Timecalc(now, today), toks, operand, o + 1) == Parsed(end, TreeS(t))
    ensures Alternates(now, today, toks, kinds, operand, [o], [t], end)
  {
    assert NextOp([o], 0, end) == end;
  }

  /** Two operators, each followed by its operand, make an alternation. */
  lemma {:induction false} AlternatesTwo(now: DateTime, today: Date, toks: seq<Token>, kinds: set<Terminal>,
                                         operand: NonTerminal, o1: nat, t1: Ast, o2: nat, t2: Ast, end: nat)
    requires Valid(now) && ValidDate(today)
    requires o1 < o2 < end <= |toks| && toks[o1].kind in kinds && toks[o2].kind in kinds
    requires ParseNT(Timecalc(now, today), toks, operand, o1 + 1) == Parsed(o2, TreeS(t1))
    requires ParseNT(Timecalc(now, today), toks, operand, o2 + 1) == Parsed(end, TreeS(t2))
    ensures Alternates(now, today, toks, kinds, operand, [o1, o2], [t1, t2], end)
  {
    assert NextOp([o1, o2], 0, end) == o2 && NextOp([o1, o2], 1, end) == end;
  }

  /** The left-grouped tree of a first operand and the two links of a chain. */
  lemma {:induction false} ChainOfTwo(toks: seq<Token>, first: Ast, o1: nat, t1: Ast, o2: nat, t2: Ast)
    requires o1 < |toks| && o2 < |toks|
    ensures LeftAssoc(first, Steps(ChainOf(toks, [o1, o2], [t1, t2])))
      == Bin(OpOf(toks[o2].kind), o2, Bin(OpOf(toks[o1].kind), o1, first, t1), t2)
  {
    var steps: seq<(Values.Op, nat, Ast)> := Steps(ChainOf(toks, [o1, o2], [t1, t2]));
    assert steps == [(OpOf(toks[o1].kind), o1, t1), (OpOf(toks[o2].kind), o2, t2)];
    assert steps[..1] == [(OpOf(toks[o1].kind), o1, t1)] && |steps[..1][..0]| == 0;
    assert LeftAssoc(first, steps[..1][..0]) == first;
    assert LeftAssoc(first, steps[..1]) == Bin(OpOf(toks[o1].kind), o1, first, t1);
  }

  /** The left-grouped tree of a first operand and the one link of a chain. */
  lemma {:induction false} ChainOfOne(toks: seq<Token>, first: Ast, o: nat, t: Ast)
    requires o < |toks|
    ensures LeftAssoc(first, Steps(ChainOf(toks, [o], [t]))) == Bin(OpOf(toks[o].kind), o, first, t)
  {
    var steps: seq<(Values.Op, nat, Ast)> := Steps(ChainOf(toks, [o], [t]));
    assert steps == [(OpOf(toks[o].kind), o, t)];
    assert |steps[..0]| == 0 && LeftAssoc(first, steps[..0]) == first;
  }

  /** `x hours` followed by none of `,`, `/` and `*` is a Term of x hours, that is
      of m microseconds. */
  lemma {:induction false} HoursTerm(now: DateTime, today: Date, toks: seq<Token>, pos: nat, x: int, m: int)
    requires Valid(now) && ValidDate(today) && pos + 1 < |toks|
    requires toks[pos].kind == NumberT && toks[pos + 1].kind == UnitT
    requires pos + 2 == |toks| || toks[pos + 2].kind !in {CommaT, DivisionT, MultiplicationT}
    requires NumberValue(toks[pos].fields) == Success(x as real) && UnitValue(toks[pos + 1].fields) == Success(Hours)
    requires m == x * Hour
    ensures ParseNT(Timecalc(now, today), toks, Term, pos) == Parsed(pos + 2, TreeS(Leaf(Values.Duration(m))))
  {
    DurationTerm(now, today, toks, pos, x, Hours);
  }

  /** Three Terms joined by two additive operators parse to the left-grouped tree. */
  lemma {:induction false} SumOfThree(now: DateTime, today: Date, toks: seq<Token>,
                                      t0: Ast, o1: nat, t1: Ast, o2: nat, t2: Ast)
    requires Valid(now) && ValidDate(today) && o1 < o2 < |toks|
    requires toks[o1].kind in {MinusT, PlusT} && toks[o2].kind in {MinusT, PlusT}
    requires ParseNT(Timecalc(now, today), toks, Term, 0) == Parsed(o1, TreeS(t0))
    requires ParseNT(Timecalc(now, today), toks, Term, o1 + 1) == Parsed(o2, TreeS(t1))
    requires ParseNT(Timecalc(now, today), toks, Term, o2 + 1) == Parsed(|toks|, TreeS(t2))
    ensures Grammar.Parse(toks, now, today)
      == Success(Bin(OpOf(toks[o2].kind), o2, Bin(OpOf(toks[o1].kind), o1, t0, t1), t2))
  {
    AlternatesTwo(now, today, toks, {MinusT, PlusT}, Term, o1, t1, o2, t2, |toks|);
    ParsesAsSum(now, today, toks, t0, o1, [o1, o2], [t1, t2]);
    ChainOfTwo(toks, t0, o1, t1, o2, t2);
  }

  /** The three terms of `0 hours - 1 hour + 1 hour`, and where each ends. */
  lemma {:induction false} SubtractThenAddTerms(now: DateTime, today: Date, toks: seq<Token>)
    requires Valid(now) && ValidDate(today)
    requires Kinds(toks) == [NumberT, UnitT, MinusT, NumberT, UnitT, PlusT, NumberT, UnitT]
    requires NumberValue(toks[0].fields) == Success(0.0)
    requires NumberValue(toks[3].fields) == Success(1.0) && NumberValue(toks[6].fields) == Success(1.0)
    requires UnitValue(toks[1].fields) == Success(Hours) && UnitValue(toks[4].fields) == Success(Hours)
    requires UnitValue(toks[7].fields) == Success(Hours)
    ensures |toks| == 8 && toks[2].kind == MinusT && toks[5].kind == PlusT
    ensures ParseNT(Timecalc(now, today), toks, Term, 0) == Parsed(2, TreeS(Leaf(Values.Duration(0))))
    ensures ParseNT(Timecalc(now, today), toks, Term, 3) == Parsed(5, TreeS(Leaf(Values.Duration(Hour))))
    ensures ParseNT(Timecalc(now, today), toks, Term, 6) == Parsed(8, TreeS(Leaf(Values.Duration(Hour))))
  {
    var kinds := Kinds(toks);
    assert toks[0].kind == kinds[0] == NumberT && toks[1].kind == kinds[1] == UnitT;
    assert toks[2].kind == kinds[2] == MinusT && toks[3].kind == kinds[3] == NumberT;
    assert toks[4].kind == kinds[4] == UnitT && toks[5].kind == kinds[5] == PlusT;
    assert toks[6].kind == kinds[6] == NumberT && toks[7].kind == kinds[7] == UnitT;
    HoursTerm(now, today, toks, 0, 0, 0);
    HoursTerm(now, today, toks, 3, 1, Hour);
    HoursTerm(now, today, toks, 6, 1, Hour);
  }

  /** The parse half of SubtractThenAdd. */
  lemma {:induction false} SubtractThenAddParse(now: DateTime, today: Date, toks: seq<Token>)
    requires Valid(now) && ValidDate(today)
    requires Kinds(toks) == [NumberT, UnitT, MinusT, NumberT, UnitT, PlusT, NumberT, UnitT]
    requires NumberValue(toks[0].fields) == Success(0.0)
    requires NumberValue(toks[3].fields) == Success(1.0) && NumberValue(toks[6].fields) == Success(1.0)
    requires UnitValue(toks[1].fields) == Success(Hours) && UnitValue(toks[4].fields) == Success(Hours)
    requires UnitValue(toks[7].fields) == Success(Hours)
    ensures Grammar.Parse(toks, now, today) == Success(
      Bin(Values.Plus, 5, Bin(Values.Minus, 2, Leaf(Values.Duration(0)), Leaf(Values.Duration(Hour))),
          Leaf(Values.Duration(Hour))))
  {
    SubtractThenAddTerms(now, today, toks);
    var zero, one := Leaf(Values.Duration(0)), Leaf(Values.Duration(Hour));
    SumOfThree(now, today, toks, zero, 2, one, 5, one);
  }

  /** `0 hours - 1 hour + 1 hour` parses as `(0 hours - 1 hour) + 1 hour`, which
      is zero: operators of one level group to the left. */
  lemma {:induction false} SubtractThenAdd(now: DateTime, today: Date, toks: seq<Token>)
    requires Valid(now) && ValidDate(today)
    requires Kinds(toks) == [NumberT, UnitT, MinusT, NumberT, UnitT, PlusT, NumberT, UnitT]
    requires NumberValue(toks[0].fields) == Success(0.0)
    requires NumberValue(toks[3].fields) == Success(1.0) && NumberValue(toks[6].fields) == Success(1.0)
    requires UnitValue(toks[1].fields) == Success(Hours) && UnitValue(toks[4].fields) == Success(Hours)
    requires UnitValue(toks[7].fields) == Success(Hours)
    ensures Grammar.Parse(toks, now, today) == Success(
      Bin(Values.Plus, 5, Bin(Values.Minus, 2, Leaf(Values.Duration(0)), Leaf(Values.Duration(Hour))),
          Leaf(Values.Duration(Hour))))
    ensures Evaluator.Evaluate(Grammar.Parse(toks, now, today).value) == Success(Values.Duration(0))
  {
    SubtractThenAddParse(now, today, toks);
    Evaluator.MinusThenPlus(0, Hour, Hour, 2, 5);
  }

  /** A number not followed by a unit is a Factor of that number. */
  lemma {:induction false} NumberFactorAt(now: DateTime, today: Date, toks: seq<Token>, pos: nat, x: real)
    requires Valid(now) && ValidDate(today) && pos < |toks| && toks[pos].kind == NumberT
    requires pos + 1 == |toks| || toks[pos + 1].kind != UnitT
    requires NumberValue(toks[pos].fields) == Success(x)
    ensures ParseNT(Timecalc(now, today), toks, Factor, pos) == Parsed(pos + 1, TreeS(Leaf(Values.Number(x))))
  {
    BareNumber(now, today, toks, pos);
    BareNumberValue(toks[pos], pos, x);
  }

  /** `x hours` not followed by a comma is a Factor of x hours, that is of m microseconds. */
  lemma {:induction false} HoursFactor(now: DateTime, today: Date, toks: seq<Token>, pos: nat, x: int, m: int)
    requires Valid(now) && ValidDate(today) && pos + 1 < |toks|
    requires toks[pos].kind == NumberT && toks[pos + 1].kind == UnitT
    requires pos + 2 == |toks| || toks[pos + 2].kind != CommaT
    requires NumberValue(toks[pos].fields) == Success(x as real) && UnitValue(toks[pos + 1].fields) == Success(Hours)
    requires m == x * Hour
    ensures ParseNT(Timecalc(now, today), toks, Factor, pos) == Parsed(pos + 2, TreeS(Leaf(Values.Duration(m))))
  {
    NumberWithUnit(now, today, toks, pos);
    OneUnitValue(toks[pos], pos, toks[pos + 1], pos + 1, x, Hours);
  }

  /** Two Factors joined by `/` or `*` are a Term of their product or quotient. */
  lemma {:induction false} ProductOfTwo(now: DateTime, today: Date, toks: seq<Token>, pos: nat,
                                        f0: Ast, o: nat, f1: Ast, end: nat)
    requires Valid(now) && ValidDate(today) && pos <= o < end <= |toks|
    requires toks[o].kind in {DivisionT, MultiplicationT}
    requires ParseNT(Timecalc(now, today), toks, Factor, pos) == Parsed(o, TreeS(f0))
    requires ParseNT(Timecalc(now, today), toks, Factor, o + 1) == Parsed(end, TreeS(f1))
    requires end == |toks| || toks[end].kind !in {DivisionT, MultiplicationT}
    ensures ParseNT(Timecalc(now, today), toks, Term, pos) == Parsed(end, TreeS(Bin(OpOf(toks[o].kind), o, f0, f1)))
  {
    AlternatesOne(now, today, toks, {DivisionT, MultiplicationT}, Factor, o, f1, end);
    TermIsProduct(now, today, toks, pos, f0, o, [o], [f1], end);
    ChainOfOne(toks, f0, o, f1);
  }

  /** Two Terms joined by `-` or `+` parse to their sum or difference. */
  lemma {:induction false} SumOfTwo(now: DateTime, today: Date, toks: seq<Token>, t0: Ast, o: nat, t1: Ast)
    requires Valid(now) && ValidDate(today) && o < |toks|
    requires toks[o].kind in {MinusT, PlusT}
    requires ParseNT(Timecalc(now, today), toks, Term, 0) == Parsed(o, TreeS(t0))
    requires ParseNT(Timecalc(now, today), toks, Term, o + 1) == Parsed(|toks|, TreeS(t1))
    ensures Grammar.Parse(toks, now, today) == Success(Bin(OpOf(toks[o].kind), o, t0, t1))
  {
    AlternatesOne(now, today, toks, {MinusT, PlusT}, Term, o, t1, |toks|);
    ParsesAsSum(now, today, toks, t0, o, [o], [t1]);
    ChainOfOne(toks, t0, o, t1);
  }

  /** The first term of `4 * 1 hour + 1 hour` is the product, and it ends at `+`. */
  lemma {:induction false} MultiplyThenAddProduct(now: DateTime, today: Date, toks: seq<Token>)
    requires Valid(now) && ValidDate(today)
    requires Kinds(toks) == [NumberT, MultiplicationT, NumberT, UnitT, PlusT, NumberT, UnitT]
    requires NumberValue(toks[0].fields) == Success(4.0)
    requires NumberValue(toks[2].fields) == Success(1.0) && NumberValue(toks[5].fields) == Success(1.0)
    requires UnitValue(toks[3].fields) == Success(Hours) && UnitValue(toks[6].fields) == Success(Hours)
    ensures ParseNT(Timecalc(now, today), toks, Term, 0)
      == Parsed(4, TreeS(Bin(Values.Times, 1, Leaf(Values.Number(4.0)), Leaf(Values.Duration(Hour)))))
  {
    var kinds := Kinds(toks);
    assert toks[0].kind == kinds[0] == NumberT && toks[1].kind == kinds[1] == MultiplicationT;
    assert toks[2].kind == kinds[2] == NumberT && toks[3].kind == kinds[3] == UnitT;
    assert toks[4].kind == kinds[4] == PlusT;
    var four, one := Leaf(Values.Number(4.0)), Leaf(Values.Duration(Hour));
    NumberFactorAt(now, today, toks, 0, 4.0);
    HoursFactor(now, today, toks, 2, 1, Hour);
    ProductOfTwo(now, today, toks, 0, four, 1, one, 4);
  }

  /** The two terms of `4 * 1 hour + 1 hour`, and where each ends. */
  lemma {:induction false} MultiplyThenAddTerms(now: DateTime, today: Date, toks: seq<Token>)
    requires Valid(now) && ValidDate(today)
    requires Kinds(toks) == [NumberT, MultiplicationT, NumberT, UnitT, PlusT, NumberT, UnitT]
    requires NumberValue(toks[0].fields) == Success(4.0)
    requires NumberValue(toks[2].fields) == Success(1.0) && NumberValue(toks[5].fields) == Success(1.0)
    requires UnitValue(toks[3].fields) == Success(Hours) && UnitValue(toks[6].fields) == Success(Hours)
    ensures |toks| == 7 && toks[4].kind == PlusT
    ensures ParseNT(Timecalc(now, today), toks, Term, 0)
      == Parsed(4, TreeS(Bin(Values.Times, 1, Leaf(Values.Number(4.0)), Leaf(Values.Duration(Hour)))))
    ensures ParseNT(Timecalc(now, today), toks, Term, 5) == Parsed(7, TreeS(Leaf(Values.Duration(Hour))))
  {
    var kinds := Kinds(toks);
    assert toks[4].kind == kinds[4] == PlusT && toks[5].kind == kinds[5] == NumberT;
    assert toks[6].kind == kinds[6] == UnitT;
    MultiplyThenAddProduct(now, today, toks);
    HoursTerm(now, today, toks, 5, 1, Hour);
  }

  /** The parse half of MultiplyThenAdd. */
  lemma {:induction false} MultiplyThenAddParse(now: DateTime, today: Date, toks: seq<Token>)
    requires Valid(now) && ValidDate(today)
    requires Kinds(toks) == [NumberT, MultiplicationT, NumberT, UnitT, PlusT, NumberT, UnitT]
    requires NumberValue(toks[0].fields) == Success(4.0)
    requires NumberValue(toks[2].fields) == Success(1.0) && NumberValue(toks[5].fields) == Success(1.0)
    requires UnitValue(toks[3].fields) == Success(Hours) && UnitValue(toks[6].fields) == Success(Hours)
    ensures Grammar.Parse(toks, now, today) == Success(
      Bin(Values.Plus, 4, Bin(Values.Times, 1, Leaf(Values.Number(4.0)), Leaf(Values.Duration(Hour))),
          Leaf(Values.Duration(Hour))))
  {
    MultiplyThenAddTerms(now, today, toks);
    var four, one := Leaf(Values.Number(4.0)), Leaf(Values.Duration(Hour));
    SumOfTwo(now, today, toks, Bin(Values.Times, 1, four, one), 4, one);
  }

  /** `4 * 1 hour + 1 hour` parses as `(4 * 1 hour) + 1 hour`, which is five
      hours: a product is an operand of the sum around it. */
  lemma {:induction false} MultiplyThenAdd(now: DateTime, today: Date, toks: seq<Token>)
    requires Valid(now) && ValidDate(today)
    requires Kinds(toks) == [NumberT, MultiplicationT, NumberT, UnitT, PlusT, NumberT, UnitT]
    requires NumberValue(toks[0].fields) == Success(4.0)
    requires NumberValue(toks[2].fields) == Success(1.0) && NumberValue(toks[5].fields) == Success(1.0)
    requires UnitValue(toks[3].fields) == Success(Hours) && UnitValue(toks[6].fields) == Success(Hours)
    ensures Grammar.Parse(toks, now, today) == Success(
      Bin(Values.Plus, 4, Bin(Values.Times, 1, Leaf(Values.Number(4.0)), Leaf(Values.Duration(Hour))),
          Leaf(Values.Duration(Hour))))
    ensures Evaluator.Evaluate(Grammar.Parse(toks, now, today).value) == Success(Values.Duration(5 * Hour))
  {
    MultiplyThenAddParse(now, today, toks);
    Evaluator.ProductBindsTighter(4, Hour, Hour, 1, 4);
  }

  // ---- dates and times

  /** DatetimeEx1 reads a time when one follows, and nothing otherwise. */
  lemma {:induction false} TimeAfter(now: DateTime, today: Date, toks: seq<Token>, pos: nat)
    requires Valid(now) && ValidDate(today) && pos <= |toks|
    ensures pos < |toks| && toks[pos].kind == TimeT ==>
      ParseNT(Timecalc(now, today), toks, DatetimeEx1, pos)
        == match TimeValue(toks[pos].fields)
           case Success(t) => Parsed(pos + 1, TimeS(Some(t)))
           case Failure(e) => Hard(e)
    ensures pos == |toks| || toks[pos].kind != TimeT ==>
      ParseNT(Timecalc(now, today), toks, DatetimeEx1, pos) == Parsed(pos, TimeS(None))
  {
    var g := Timecalc(now, today);
    if pos < |toks| && toks[pos].kind == TimeT {
      TokenRule(g, toks, DatetimeEx1, 0, pos);
    } else {
      SkipRule(g, toks, DatetimeEx1, 0, pos);
      EmptyRule(g, toks, DatetimeEx1, 1, pos);
    }
  }

  /** Before a date token, Datetime passes over its first two rules. */
  lemma {:induction false} DateRule(now: DateTime, today: Date, toks: seq<Token>, pos: nat)
    requires Valid(now) && ValidDate(today) && pos < |toks| && toks[pos].kind == DateT
    ensures ParseNT(Timecalc(now, today), toks, Datetime, pos) == ParseRules(Timecalc(now, today), toks, Datetime, 2, pos)
  {
    var g := Timecalc(now, today);
    SkipRule(g, toks, Datetime, 0, pos);
    SkipRule(g, toks, Datetime, 1, pos);
  }

  /** Before a time token, Datetime passes over its first four rules. */
  lemma {:induction false} TimeRule(now: DateTime, today: Date, toks: seq<Token>, pos: nat)
    requires Valid(now) && ValidDate(today) && pos < |toks| && toks[pos].kind == TimeT
    ensures ParseNT(Timecalc(now, today), toks, Datetime, pos) == ParseRules(Timecalc(now, today), toks, Datetime, 4, pos)
  {
    var g := Timecalc(now, today);
    SkipRule(g, toks, Datetime, 0, pos);
    SkipRule(g, toks, Datetime, 1, pos);
    SkipRule(g, toks, Datetime, 2, pos);
    SkipRule(g, toks, Datetime, 3, pos);
  }

  /** A Datetime that starts with a date token: `Datetime.r1` over the date and
      whatever DatetimeEx1 read after it. */
  lemma {:induction false} DateFirst(now: DateTime, today: Date, toks: seq<Token>, pos: nat, q: nat, time: Option<Time>, d: Date)
    requires Valid(now) && ValidDate(today) && pos < |toks| && toks[pos].kind == DateT
    requires DateValue(toks[pos].fields) == Success(d)
    requires ParseNT(Timecalc(now, today), toks, DatetimeEx1, pos + 1) == Parsed(q, TimeS(time))
    ensures ParseNT(Timecalc(now, today), toks, Datetime, pos) == Parsed(q, Instant(Combine(Some(d), time, today)))
  {
    DateRule(now, today, toks, pos);
    TokenThenRule(Timecalc(now, today), toks, Datetime, 2, pos, DatetimeEx1, q, TimeS(time));
  }

  /** A date followed by a time is the instant at that time on that date. */
  lemma {:induction false} DateThenTime(now: DateTime, today: Date, toks: seq<Token>, pos: nat, d: Date, t: Time)
    requires Valid(now) && ValidDate(today) && pos + 1 < |toks|
    requires toks[pos].kind == DateT && toks[pos + 1].kind == TimeT
    requires DateValue(toks[pos].fields) == Success(d) && TimeValue(toks[pos + 1].fields) == Success(t)
    ensures ParseNT(Timecalc(now, today), toks, Datetime, pos)
      == Parsed(pos + 2, TreeS(Leaf(Values.Datetime(DateTime(d, t)))))
  {
    TimeAfter(now, today, toks, pos + 1);
    DateFirst(now, today, toks, pos, pos + 2, Some(t), d);
  }

  /** A date with no time after it is midnight at the start of that date. */
  lemma {:induction false} DateAlone(now: DateTime, today: Date, toks: seq<Token>, pos: nat, d: Date)
    requires Valid(now) && ValidDate(today) && pos < |toks| && toks[pos].kind == DateT
    requires pos + 1 == |toks| || toks[pos + 1].kind != TimeT
    requires DateValue(toks[pos].fields) == Success(d)
    ensures ParseNT(Timecalc(now, today), toks, Datetime, pos)
      == Parsed(pos + 1, TreeS(Leaf(Values.Datetime(DateTime(d, Midnight)))))
  {
    TimeAfter(now, today, toks, pos + 1);
    DateFirst(now, today, toks, pos, pos + 1, None, d);
  }

  /** DatetimeEx2 reads nothing when neither a date nor `today` follows. */
  lemma {:induction false} NoDateAfter(now: DateTime, today: Date, toks: seq<Token>, pos: nat)
    requires Valid(now) && ValidDate(today) && pos <= |toks|
    requires pos == |toks| || toks[pos].kind !in {DateT, DateLiteralT}
    ensures ParseNT(Timecalc(now, today), toks, DatetimeEx2, pos) == Parsed(pos, DateS(None))
  {
    var g := Timecalc(now, today);
    SkipRule(g, toks, DatetimeEx2, 0, pos);
    SkipRule(g, toks, DatetimeEx2, 1, pos);
    EmptyRule(g, toks, DatetimeEx2, 2, pos);
  }

  /** A Datetime that starts with a time token: `Datetime.r2` over the time and
      whatever DatetimeEx2 read after it. */
  lemma {:induction false} TimeFirst(now: DateTime, today: Date, toks: seq<Token>, pos: nat, q: nat, date: Option<Date>, t: Time)
    requires Valid(now) && ValidDate(today) && pos < |toks| && toks[pos].kind == TimeT
    requires TimeValue(toks[pos].fields) == Success(t)
    requires ParseNT(Timecalc(now, today), toks, DatetimeEx2, pos + 1) == Parsed(q, DateS(date))
    ensures ParseNT(Timecalc(now, today), toks, Datetime, pos) == Parsed(q, Instant(Combine(date, Some(t), today)))
  {
    TimeRule(now, today, toks, pos);
    TokenThenRule(Timecalc(now, today), toks, Datetime, 4, pos, DatetimeEx2, q, DateS(date));
  }

  /** A time with no date after it is that time today. */
  lemma {:induction false} TimeAlone(now: DateTime, today: Date, toks: seq<Token>, pos: nat, t: Time)
    requires Valid(now) && ValidDate(today) && pos < |toks| && toks[pos].kind == TimeT
    requires pos + 1 == |toks| || toks[pos + 1].kind !in {DateT, DateLiteralT}
    requires TimeValue(toks[pos].fields) == Success(t)
    ensures ParseNT(Timecalc(now, today), toks, Datetime, pos)
      == Parsed(pos + 1, TreeS(Leaf(Values.Datetime(DateTime(today, t)))))
  {
    NoDateAfter(now, today, toks, pos + 1);
    TimeFirst(now, today, toks, pos, pos + 1, None, t);
  }
}

/** `do_compute` and `compute_from_string` of timecalc.py: the expression tree is
    evaluated bottom-up, left operand first, and an operator method that returns
    None is reported as BadOperand at the operator's token. */
module Evaluator {
  import opened Wrappers
  import opened Errors
  import opened Civil
  import opened Lexer
  import opened Values
  import opened Syntax
  import Grammar

  /** `do_compute(ast)`. */
  function Evaluate(a: Ast): (r: Result<Value, Error>)
    requires LeavesWellFormed(a)
    ensures r.Success? ==> WellFormed(r.value)
    ensures r.Failure? ==> r.error in {ZeroDivision, Overflow} || (r.error.BadOperand? && r.error.opPos in OpPositions(a))
  {
    match a
    case Leaf(v) => Success(v)
    case Bin(op, p, l, rt) =>
      var x :- Evaluate(l);
      var y :- Evaluate(rt);
      match Apply(op, x, y)
      case Undefined => Failure(BadOperand(p))
      case Raised(e) => Failure(e)
      case Yields(v) => Success(v)
  }

  /** The token positions of the operators of a tree. */
  function OpPositions(a: Ast): set<nat> {
    match a
    case Leaf(_) => {}
    case Bin(_, p, l, r) => {p} + OpPositions(l) + OpPositions(r)
  }

  /** The type of an expression, read off the operator table without evaluating
      anything; None when some operator meets operands it has no method for. */
  function TypeOf(a: Ast): Option<Kind> {
    match a
    case Leaf(v) => Some(KindOf(v))
    case Bin(op, _, l, r) =>
      if TypeOf(l).Some? && TypeOf(r).Some? then Table(op, TypeOf(l).value, TypeOf(r).value) else None
  }

  /** Evaluation agrees with the static types: a value has the type the table gives
      the tree; a well-typed tree never raises BadOperand, only ZeroDivisionError or
      OverflowError; and an ill-typed tree always fails. */
  lemma {:induction false} TypeSoundness(a: Ast)
    requires LeavesWellFormed(a)
    ensures Evaluate(a).Success? ==> TypeOf(a) == Some(KindOf(Evaluate(a).value))
    ensures TypeOf(a).Some? && Evaluate(a).Failure? ==> Evaluate(a).error in {ZeroDivision, Overflow}
    ensures TypeOf(a).None? ==> Evaluate(a).Failure?
  {
    match a
    case Leaf(v) =>
    case Bin(op, p, l, rt) =>
      TypeSoundness(l);
      TypeSoundness(rt);
      if Evaluate(l).Success? && Evaluate(rt).Success? {
        OperatorTable(op, Evaluate(l).value, Evaluate(rt).value);
      }
  }

  /** The left operand is evaluated first and its error wins over the right one's;
      with both evaluated, the operator raises BadOperand at its own token exactly
      when the table has no entry for the operand types. */
  lemma {:induction false} FirstFailureWins(op: Op, p: nat, l: Ast, rt: Ast)
    requires LeavesWellFormed(l) && LeavesWellFormed(rt)
    ensures Evaluate(l).Failure? ==> Evaluate(Bin(op, p, l, rt)) == Failure(Evaluate(l).error)
    ensures Evaluate(l).Success? && Evaluate(rt).Failure? ==> Evaluate(Bin(op, p, l, rt)) == Failure(Evaluate(rt).error)
    ensures Evaluate(l).Success? && Evaluate(rt).Success? ==>
      (Evaluate(Bin(op, p, l, rt)) == Failure(BadOperand(p))
       <==> Table(op, KindOf(Evaluate(l).value), KindOf(Evaluate(rt).value)).None?)
  {
    if Evaluate(l).Success? && Evaluate(rt).Success? {
      OperatorTable(op, Evaluate(l).value, Evaluate(rt).value);
    }
  }

  /** The evaluation half of GrammarRuns.SubtractThenAdd: the tree of `a - b + c`
      is `(a - b) + c`, and it evaluates to a - b + c. */
  lemma MinusThenPlus(a: int, b: int, c: int, p: nat, q: nat)
    ensures MakeAstLR(Leaf(Duration(a)), More(Minus, p, Leaf(Duration(b)), More(Plus, q, Leaf(Duration(c)), End)))
      == Bin(Plus, q, Bin(Minus, p, Leaf(Duration(a)), Leaf(Duration(b))), Leaf(Duration(c)))
    ensures LeavesWellFormed(Bin(Plus, q, Bin(Minus, p, Leaf(Duration(a)), Leaf(Duration(b))), Leaf(Duration(c))))
      && Evaluate(Bin(Plus, q, Bin(Minus, p, Leaf(Duration(a)), Leaf(Duration(b))), Leaf(Duration(c))))
         == Success(Duration(a - b + c))
  {
    var inner := Bin(Minus, p, Leaf(Duration(a)), Leaf(Duration(b)));
    calc {
      MakeAstLR(Leaf(Duration(a)), More(Minus, p, Leaf(Duration(b)), More(Plus, q, Leaf(Duration(c)), End)));
      MakeAstLR(inner, More(Plus, q, Leaf(Duration(c)), End));
      MakeAstLR(Bin(Plus, q, inner, Leaf(Duration(c))), End);
    }
    var d := DurationStep(Minus, p, a, b);
    DurationStepFrom(Plus, q, inner, d, c);
  }

  /** Two Durations under `+` or `-`. */
  lemma DurationStep(op: Op, p: nat, x: int, y: int) returns (d: int)
    requires op == Plus || op == Minus
    ensures d == (if op == Plus then x + y else x - y)
    ensures LeavesWellFormed(Bin(op, p, Leaf(Duration(x)), Leaf(Duration(y))))
      && Evaluate(Bin(op, p, Leaf(Duration(x)), Leaf(Duration(y)))) == Success(Duration(d))
  {
    d := if op == Plus then x + y else x - y;
    assert LeavesWellFormed(Leaf(Duration(x))) && LeavesWellFormed(Leaf(Duration(y)));
  }

  /** A tree evaluating to a Duration, then `+` or `-` a Duration. */
  lemma DurationStepFrom(op: Op, p: nat, l: Ast, d: int, y: int)
    requires op == Plus || op == Minus
    requires LeavesWellFormed(l) && Evaluate(l) == Success(Duration(d))
    ensures LeavesWellFormed(Bin(op, p, l, Leaf(Duration(y))))
      && Evaluate(Bin(op, p, l, Leaf(Duration(y)))) == Success(Duration(if op == Plus then d + y else d - y))
  {
    assert LeavesWellFormed(Leaf(Duration(y)));
  }

  /** The evaluation half of GrammarRuns.MultiplyThenAdd: the Term tree of
      `k * d` inside the Expression tree of `... + e` is `(k * d) + e`, and it
      evaluates to k * d + e. */
  lemma ProductBindsTighter(k: int, d: int, e: int, p: nat, q: nat)
    ensures MakeAstLR(MakeAstLR(Leaf(Number(k as real)), More(Times, p, Leaf(Duration(d)), End)),
                      More(Plus, q, Leaf(Duration(e)), End))
      == Bin(Plus, q, Bin(Times, p, Leaf(Number(k as real)), Leaf(Duration(d))), Leaf(Duration(e)))
    ensures LeavesWellFormed(Bin(Plus, q, Bin(Times, p, Leaf(Number(k as real)), Leaf(Duration(d))), Leaf(Duration(e))))
      && Evaluate(Bin(Plus, q, Bin(Times, p, Leaf(Number(k as real)), Leaf(Duration(d))), Leaf(Duration(e))))
         == Success(Duration(k * d + e))
  {
    var term := Bin(Times, p, Leaf(Number(k as real)), Leaf(Duration(d)));
    calc {
      MakeAstLR(Leaf(Number(k as real)), More(Times, p, Leaf(Duration(d)), End));
      MakeAstLR(term, End);
    }
    calc {
      MakeAstLR(term, More(Plus, q, Leaf(Duration(e)), End));
      MakeAstLR(Bin(Plus, q, term, Leaf(Duration(e))), End);
    }
    assert LeavesWellFormed(Leaf(Number(k as real))) && LeavesWellFormed(Leaf(Duration(d)));
    assert (k as real).Floor == k;
    assert Evaluate(term) == Success(Duration(k * d)) by {
      assert Scale(d, k as real) == d * k;
    }
  }

  /** `compute_from_string(text)`, with the clock readings as parameters. */
  function Compute(text: string, now: DateTime, today: Date): (r: Result<Value, Error>)
    requires Valid(now) && ValidDate(today)
    ensures r.Success? ==> WellFormed(r.value)
    ensures Tokenize(text).Failure? ==> r == Failure(Tokenize(text).error)
    ensures Tokenize(text).Success? && Grammar.Parse(Tokenize(text).value, now, today).Failure? ==>
      r == Failure(Grammar.Parse(Tokenize(text).value, now, today).error)
    ensures r.Success? ==>
      Tokenize(text).Success? && Grammar.Parse(Tokenize(text).value, now, today).Success?
      && Evaluate(Grammar.Parse(Tokenize(text).value, now, today).value) == Success(r.value)
  {
    var toks :- Tokenize(text);
    var ast :- Grammar.Parse(toks, now, today);
    Evaluate(ast)
  }
}

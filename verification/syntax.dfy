/** The expression trees the timecalc.py grammar builds: a value, or an operator
    token applied to two subtrees (`[op, left, right]`), and `make_ast_lr`, which
    turns an operand followed by a chain of `op operand` pairs into a
    left-associative tree. */
module Syntax {
  import opened Values

  /** A leaf is the value a literal denotes; opPos is the index of the operator's
      token, where BadOperand is reported. */
  datatype Ast = Leaf(v: Value) | Bin(op: Op, opPos: nat, left: Ast, right: Ast)

  /** What TermD and ExpressionD build: `[op, right, rest]`, or nothing. */
  datatype Tail = End | More(op: Op, opPos: nat, right: Ast, rest: Tail)

  /** `make_ast_lr(left, rest)`. */
  function MakeAstLR(left: Ast, rest: Tail): Ast
    decreases rest
  {
    match rest
    case End => left
    case More(op, p, right, rest') => MakeAstLR(Bin(op, p, left, right), rest')
  }

  /** The `op operand` pairs of a chain, in order. */
  function Steps(t: Tail): seq<(Op, nat, Ast)> {
    match t
    case End => []
    case More(op, p, right, rest) => [(op, p, right)] + Steps(rest)
  }

  /** Left association defined from the other end: the last operator of the chain
      is the root, and everything before it is its left operand. */
  function LeftAssoc(first: Ast, steps: seq<(Op, nat, Ast)>): Ast
    decreases |steps|
  {
    if |steps| == 0 then first
    else
      var (op, p, right) := steps[|steps| - 1];
      Bin(op, p, LeftAssoc(first, steps[..|steps| - 1]), right)
  }

  lemma {:induction false} LeftAssocSnoc(first: Ast, steps: seq<(Op, nat, Ast)>, op: Op, p: nat, right: Ast)
    ensures LeftAssoc(first, [(op, p, right)] + steps) == LeftAssoc(Bin(op, p, first, right), steps)
    decreases |steps|
  {
    if |steps| > 0 {
      var s := [(op, p, right)] + steps;
      assert s[..|s| - 1] == [(op, p, right)] + steps[..|steps| - 1];
      LeftAssocSnoc(first, steps[..|steps| - 1], op, p, right);
    }
  }

  /** `make_ast_lr` builds the left-associative tree: `a - b - c` is `(a - b) - c`. */
  lemma {:induction false} MakeAstLRIsLeftAssoc(left: Ast, rest: Tail)
    ensures MakeAstLR(left, rest) == LeftAssoc(left, Steps(rest))
    decreases rest
  {
    match rest
    case End =>
    case More(op, p, right, rest') =>
      MakeAstLRIsLeftAssoc(Bin(op, p, left, right), rest');
      LeftAssocSnoc(left, Steps(rest'), op, p, right);
  }

  /** An element of the infix reading of a tree. */
  datatype Item = Operand(v: Value) | Operator(op: Op, opPos: nat)

  /** The leaves and operators of a tree, read left to right. */
  function Infix(a: Ast): seq<Item> {
    match a
    case Leaf(v) => [Operand(v)]
    case Bin(op, p, l, r) => Infix(l) + [Operator(op, p)] + Infix(r)
  }

  function TailInfix(t: Tail): seq<Item> {
    match t
    case End => []
    case More(op, p, right, rest) => [Operator(op, p)] + Infix(right) + TailInfix(rest)
  }

  /** `make_ast_lr` keeps the operands and operators in the order they were written. */
  lemma {:induction false} MakeAstLRKeepsOrder(left: Ast, rest: Tail)
    ensures Infix(MakeAstLR(left, rest)) == Infix(left) + TailInfix(rest)
    decreases rest
  {
    match rest
    case End =>
    case More(op, p, right, rest') =>
      MakeAstLRKeepsOrder(Bin(op, p, left, right), rest');
      assert Infix(left) + TailInfix(rest)
        == Infix(left) + [Operator(op, p)] + Infix(right) + TailInfix(rest');
  }

  /** Every leaf is a well-formed value (a Datetime lies in years 1..9999). */
  predicate LeavesWellFormed(a: Ast) {
    match a
    case Leaf(v) => WellFormed(v)
    case Bin(_, _, l, r) => LeavesWellFormed(l) && LeavesWellFormed(r)
  }

  predicate TailWellFormed(t: Tail) {
    match t
    case End => true
    case More(_, _, right, rest) => LeavesWellFormed(right) && TailWellFormed(rest)
  }

  /** `make_ast_lr` builds nothing but from its operands. */
  lemma {:induction false} MakeAstLRWellFormed(left: Ast, rest: Tail)
    requires LeavesWellFormed(left) && TailWellFormed(rest)
    ensures LeavesWellFormed(MakeAstLR(left, rest))
    decreases rest
  {
    match rest
    case End =>
    case More(op, p, right, rest') =>
      MakeAstLRWellFormed(Bin(op, p, left, right), rest');
  }
}

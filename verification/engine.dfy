/** The grammar-driven recursive-descent engine of timecalc.py (`parse_rule`,
    `parse_nonterm`, `do_parser`), generic over the nonterminals N of a grammar
    and the values S its rules build. Each nonterminal tries its rules in order
    and takes the first that does not fail softly; a rule fails softly only when
    its first symbol does, and once a symbol of it has matched, a failure of a
    later symbol is a syntax error that ends the parse. */
module Engine {
  import opened Wrappers
  import opened Errors
  import opened Terminals
  import opened Lexer

  datatype Sym<N> = T(t: Terminal) | NT(n: N)

  /** A rule: the name of its method, which orders the alternatives, and its symbols. */
  datatype Rule<N> = Rule(name: string, syms: seq<Sym<N>>)

  /** What a rule's builder receives for one symbol: the matched token with its
      index, or the value the nonterminal built. */
  datatype Part<S> = Tok(token: Token, index: nat) | Sub(value: S)

  /** The rules of every nonterminal, a rank that orders the nonterminals a rule may
      start with, the builders (`cb(*parts)`), addressed by nonterminal and rule
      index, and an invariant of the values the builders make. */
  datatype Grammar<!N, !S> = Grammar(
    rules: N -> seq<Rule<N>>,
    rank: N -> nat,
    build: (N, nat, seq<Part<S>>) -> Result<S, Error>,
    inv: S -> bool)

  /** The result of parsing a nonterminal or the symbols of a rule: the position
      after it and what it built; a soft failure (`BadRule` or `BadSymbol`), which
      the enclosing nonterminal answers by trying its next rule; or an error that
      ends the parse. */
  datatype Outcome<R> = Parsed(pos: nat, value: R) | Soft | Hard(err: Error)

  /** Whether a terminal occurs among the first j symbols. */
  predicate Guarded<N>(syms: seq<Sym<N>>, j: int) {
    exists k :: 0 <= k < j && k < |syms| && syms[k].T?
  }

  /** Whether every built value among the parts keeps the invariant. */
  predicate Sound<S>(inv: S -> bool, parts: seq<Part<S>>) {
    forall k :: 0 <= k < |parts| && parts[k].Sub? ==> inv(parts[k].value)
  }

  /** No left recursion: a nonterminal that a rule of n reaches without first
      matching a terminal ranks below n; no builder raises the engine's own
      syntax error; and a builder given sound parts builds a value that keeps the
      invariant. */
  ghost predicate WellFormed<N(!new), S(!new)>(g: Grammar<N, S>) {
    (forall n: N, i, j :: 0 <= i < |g.rules(n)| && 0 <= j < |g.rules(n)[i].syms| && g.rules(n)[i].syms[j].NT? ==>
       g.rank(g.rules(n)[i].syms[j].n) < g.rank(n) || Guarded(g.rules(n)[i].syms, j))
    && (forall n: N, i, parts :: g.build(n, i, parts).Failure? ==> !g.build(n, i, parts).error.ParserSyntaxError?)
    && (forall n: N, i, parts :: Sound(g.inv, parts) && g.build(n, i, parts).Success? ==> g.inv(g.build(n, i, parts).value))
  }

  /** What `parse_rule` raises when a symbol fails after an earlier one matched:
      NotEnoughTokens at the end of the tokens (reported after `tokens[-1]`, an
      IndexError when there are none), otherwise a syntax error at the token. */
  function BrokenRule(toks: seq<Token>, pos: nat): (e: Error)
    ensures e.ParserSyntaxError? <==> pos < |toks|
    ensures e.ParserSyntaxError? ==> e.tokenPos == pos
    ensures pos >= |toks| && |toks| > 0 ==> e == NotEnoughTokens
    ensures |toks| == 0 ==> e == IndexErr
  {
    if pos >= |toks| then (if |toks| == 0 then IndexErr else NotEnoughTokens) else ParserSyntaxError(pos)
  }

  /** How the j-th symbol of a rule failing softly ends the rule. */
  function Fail<R>(toks: seq<Token>, j: nat, pos: nat): (r: Outcome<R>)
    ensures r.Soft? <==> j == 0
    ensures r.Hard? ==> r.err == BrokenRule(toks, pos)
  {
    if j > 0 then Hard(BrokenRule(toks, pos)) else Soft
  }

  /** Whether the parts built for syms[j..] line up with those symbols: a token of
      the right kind for each terminal, a built value for each nonterminal. */
  predicate LinesUp<N, S>(syms: seq<Sym<N>>, j: nat, parts: seq<Part<S>>)
    requires j <= |syms|
  {
    |parts| == |syms| - j
    && forall k :: 0 <= k < |parts| ==>
         match syms[j + k]
         case T(t) => parts[k].Tok? && parts[k].token.kind == t
         case NT(_) => parts[k].Sub?
  }

  /** `parse_nonterm(n, tokens, pos)`. */
  function ParseNT<N(!new), S(!new)>(g: Grammar<N, S>, toks: seq<Token>, n: N, pos: nat): (r: Outcome<S>)
    requires WellFormed(g) && pos <= |toks|
    ensures r.Parsed? ==> pos <= r.pos <= |toks| && g.inv(r.value)
    ensures r.Hard? && r.err.ParserSyntaxError? ==> pos <= r.err.tokenPos < |toks|
    decreases |toks| - pos, g.rank(n), 2, 0
  {
    ParseRules(g, toks, n, 0, pos)
  }

  /** The rule loop of `parse_nonterm`, from the i-th rule on. */
  function ParseRules<N(!new), S(!new)>(g: Grammar<N, S>, toks: seq<Token>, n: N, i: nat, pos: nat): (r: Outcome<S>)
    requires WellFormed(g) && pos <= |toks|
    ensures r.Parsed? ==> pos <= r.pos <= |toks| && g.inv(r.value)
    ensures r.Hard? && r.err.ParserSyntaxError? ==> pos <= r.err.tokenPos < |toks|
    decreases |toks| - pos, g.rank(n), 1, if i <= |g.rules(n)| then |g.rules(n)| - i else 0
  {
    if i >= |g.rules(n)| then Soft
    else
      var o := ParseSyms(g, toks, n, i, 0, pos, pos, []);
      if o.Soft? then ParseRules(g, toks, n, i + 1, pos) else Conclude(g, n, i, o)
  }

  /** What a nonterminal gives when its i-th rule did not fail softly: the rule's
      error, or the verdict of the rule's builder on the parts it matched. */
  function Conclude<N(!new), S(!new)>(g: Grammar<N, S>, n: N, i: nat, o: Outcome<seq<Part<S>>>): (r: Outcome<S>)
    requires WellFormed(g) && !o.Soft? && (o.Parsed? ==> Sound(g.inv, o.value))
    ensures !r.Soft?
    ensures r.Parsed? ==> g.inv(r.value)
    ensures r.Parsed? ==> o.Parsed? && r.pos == o.pos && g.build(n, i, o.value) == Success(r.value)
    ensures r.Hard? ==> (o.Hard? && r.err == o.err) || (o.Parsed? && g.build(n, i, o.value) == Failure(r.err))
  {
    if o.Hard? then Hard(o.err)
    else
      match g.build(n, i, o.value)
      case Success(v) => Parsed(o.pos, v)
      case Failure(e) => Hard(e)
  }

  /** `parse_rule` for the symbols of the i-th rule of n from the j-th on, started at
      token `start`, now at token `pos`, with the parts acc built so far. */
  function ParseSyms<N(!new), S(!new)>(g: Grammar<N, S>, toks: seq<Token>, n: N, i: nat, j: nat,
                           start: nat, pos: nat, acc: seq<Part<S>>): (r: Outcome<seq<Part<S>>>)
    requires WellFormed(g) && i < |g.rules(n)| && j <= |g.rules(n)[i].syms|
    requires start <= pos <= |toks|
    requires Guarded(g.rules(n)[i].syms, j) ==> start < pos
    requires Sound(g.inv, acc)
    ensures r.Parsed? ==> pos <= r.pos <= |toks| && Sound(g.inv, r.value)
    ensures r.Parsed? ==>
      |r.value| >= |acc| && r.value[..|acc|] == acc && LinesUp(g.rules(n)[i].syms, j, r.value[|acc|..])
    ensures r.Soft? ==> j == 0
    ensures r.Hard? && r.err.ParserSyntaxError? ==> pos <= r.err.tokenPos < |toks|
    decreases |toks| - start, g.rank(n), 0, |g.rules(n)[i].syms| - j
  {
    var syms := g.rules(n)[i].syms;
    if j == |syms| then Parsed(pos, acc)
    else
      match syms[j]
      case T(t) =>
        if pos < |toks| && toks[pos].kind == t then
          var r := ParseSyms(g, toks, n, i, j + 1, start, pos + 1, acc + [Tok(toks[pos], pos)]);
          assert r.Parsed? ==> r.value[..|acc|] == acc && r.value[|acc|..][1..] == r.value[|acc| + 1..] by {
            if r.Parsed? {
              assert r.value[..|acc| + 1][..|acc|] == r.value[..|acc|];
            }
          }
          r
        else Fail(toks, j, pos)
      case NT(m) =>
        assert g.rank(m) < g.rank(n) || start < pos;
        match ParseNT(g, toks, m, pos)
        case Parsed(p, v) =>
          var r := ParseSyms(g, toks, n, i, j + 1, start, p, acc + [Sub(v)]);
          assert r.Parsed? ==> r.value[..|acc|] == acc && r.value[|acc|..][1..] == r.value[|acc| + 1..] by {
            if r.Parsed? {
              assert r.value[..|acc| + 1][..|acc|] == r.value[..|acc|];
            }
          }
          r
        case Soft => Fail(toks, j, pos)
        case Hard(e) => Hard(e)
  }

  /** What the i-th rule of n alone gives at pos, before the builder runs. */
  function RuleOutcome<N(!new), S(!new)>(g: Grammar<N, S>, toks: seq<Token>, n: N, i: nat, pos: nat): (r: Outcome<seq<Part<S>>>)
    requires WellFormed(g) && i < |g.rules(n)| && pos <= |toks|
    ensures r.Parsed? ==> Sound(g.inv, r.value)
  {
    ParseSyms(g, toks, n, i, 0, pos, pos, [])
  }

  /** Ordered choice: a nonterminal fails softly exactly when every one of its rules
      fails softly at its first symbol, and otherwise gives what the first rule
      that does not fail softly gives, passed through its builder. */
  lemma {:induction false} OrderedChoice<N(!new), S(!new)>(g: Grammar<N, S>, toks: seq<Token>, n: N, i: nat, pos: nat)
    requires WellFormed(g) && pos <= |toks|
    ensures ParseRules(g, toks, n, i, pos).Soft?
      <==> forall k :: i <= k < |g.rules(n)| ==> RuleOutcome(g, toks, n, k, pos).Soft?
    ensures !ParseRules(g, toks, n, i, pos).Soft? ==>
      exists k :: i <= k < |g.rules(n)|
        && (forall k' :: i <= k' < k ==> RuleOutcome(g, toks, n, k', pos).Soft?)
        && !RuleOutcome(g, toks, n, k, pos).Soft?
        && ParseRules(g, toks, n, i, pos) == Conclude(g, n, k, RuleOutcome(g, toks, n, k, pos))
    decreases if i <= |g.rules(n)| then |g.rules(n)| - i else 0
  {
    if i < |g.rules(n)| && RuleOutcome(g, toks, n, i, pos).Soft? {
      OrderedChoice(g, toks, n, i + 1, pos);
      if !ParseRules(g, toks, n, i, pos).Soft? {
        var k :| i + 1 <= k < |g.rules(n)|
          && (forall k' :: i + 1 <= k' < k ==> RuleOutcome(g, toks, n, k', pos).Soft?)
          && !RuleOutcome(g, toks, n, k, pos).Soft?
          && ParseRules(g, toks, n, i + 1, pos) == Conclude(g, n, k, RuleOutcome(g, toks, n, k, pos));
        assert forall k' :: i <= k' < k ==> RuleOutcome(g, toks, n, k', pos).Soft?;
      }
    }
  }

  // ---- the engine one step at a time

  /** A rule that starts with a terminal other than the next token's fails softly,
      and the nonterminal goes on to its next rule. */
  lemma SkipRule<N(!new), S(!new)>(g: Grammar<N, S>, toks: seq<Token>, n: N, i: nat, pos: nat)
    requires WellFormed(g) && pos <= |toks| && i < |g.rules(n)|
    requires |g.rules(n)[i].syms| > 0 && g.rules(n)[i].syms[0].T?
    requires pos == |toks| || toks[pos].kind != g.rules(n)[i].syms[0].t
    ensures ParseRules(g, toks, n, i, pos) == ParseRules(g, toks, n, i + 1, pos)
  {
    assert ParseSyms(g, toks, n, i, 0, pos, pos, []) == Soft;
  }

  /** A rule that starts with a nonterminal that fails softly fails softly too. */
  lemma SkipSubRule<N(!new), S(!new)>(g: Grammar<N, S>, toks: seq<Token>, n: N, i: nat, pos: nat)
    requires WellFormed(g) && pos <= |toks| && i < |g.rules(n)|
    requires |g.rules(n)[i].syms| > 0 && g.rules(n)[i].syms[0].NT?
    requires ParseNT(g, toks, g.rules(n)[i].syms[0].n, pos) == Soft
    ensures ParseRules(g, toks, n, i, pos) == ParseRules(g, toks, n, i + 1, pos)
  {
    assert !Guarded(g.rules(n)[i].syms, 0);
    assert ParseSyms(g, toks, n, i, 0, pos, pos, []) == Soft;
  }

  /** A rule that does not fail softly decides the nonterminal. */
  lemma TakeRule<N(!new), S(!new)>(g: Grammar<N, S>, toks: seq<Token>, n: N, i: nat, pos: nat, o: Outcome<seq<Part<S>>>)
    requires WellFormed(g) && pos <= |toks| && i < |g.rules(n)|
    requires ParseSyms(g, toks, n, i, 0, pos, pos, []) == o && !o.Soft?
    ensures ParseRules(g, toks, n, i, pos) == Conclude(g, n, i, o)
  {
  }

  /** A terminal symbol that the next token matches takes that token. */
  lemma TokenStep<N(!new), S(!new)>(g: Grammar<N, S>, toks: seq<Token>, n: N, i: nat, j: nat,
                                    start: nat, pos: nat, acc: seq<Part<S>>)
    requires WellFormed(g) && i < |g.rules(n)| && j < |g.rules(n)[i].syms|
    requires start <= pos < |toks|
    requires Guarded(g.rules(n)[i].syms, j) ==> start < pos
    requires Sound(g.inv, acc)
    requires g.rules(n)[i].syms[j] == T(toks[pos].kind)
    ensures Sound(g.inv, acc + [Tok(toks[pos], pos)])
    ensures ParseSyms(g, toks, n, i, j, start, pos, acc)
      == ParseSyms(g, toks, n, i, j + 1, start, pos + 1, acc + [Tok(toks[pos], pos)])
  {
    assert forall k :: 0 <= k < |acc| ==> (acc + [Tok(toks[pos], pos)])[k] == acc[k];
  }

  /** A nonterminal symbol that parses takes what it built. */
  lemma SubStep<N(!new), S(!new)>(g: Grammar<N, S>, toks: seq<Token>, n: N, i: nat, j: nat,
                                  start: nat, pos: nat, acc: seq<Part<S>>, p: nat, v: S)
    requires WellFormed(g) && i < |g.rules(n)| && j < |g.rules(n)[i].syms|
    requires start <= pos <= |toks|
    requires Guarded(g.rules(n)[i].syms, j) ==> start < pos
    requires Sound(g.inv, acc)
    requires g.rules(n)[i].syms[j].NT?
    requires g.rank(g.rules(n)[i].syms[j].n) < g.rank(n) || start < pos
    requires ParseNT(g, toks, g.rules(n)[i].syms[j].n, pos) == Parsed(p, v)
    ensures pos <= p <= |toks| && (Guarded(g.rules(n)[i].syms, j + 1) ==> start < p)
    ensures Sound(g.inv, acc + [Sub(v)])
    ensures ParseSyms(g, toks, n, i, j, start, pos, acc)
      == ParseSyms(g, toks, n, i, j + 1, start, p, acc + [Sub(v)])
  {
    var syms := g.rules(n)[i].syms;
    if Guarded(syms, j + 1) {
      var k :| 0 <= k < j + 1 && k < |syms| && syms[k].T?;
      assert Guarded(syms, j);
    }
    assert forall k :: 0 <= k < |acc| ==> (acc + [Sub(v)])[k] == acc[k];
  }

  /** A rule with no symbols matches the empty input. */
  lemma EmptyRule<N(!new), S(!new)>(g: Grammar<N, S>, toks: seq<Token>, n: N, i: nat, pos: nat)
    requires WellFormed(g) && pos <= |toks| && i < |g.rules(n)|
    requires |g.rules(n)[i].syms| == 0
    ensures ParseRules(g, toks, n, i, pos) == Conclude(g, n, i, Parsed(pos, []))
  {
    TakeRule(g, toks, n, i, pos, Parsed(pos, []));
  }

  /** A rule of one terminal that the next token matches takes that token. */
  lemma TokenRule<N(!new), S(!new)>(g: Grammar<N, S>, toks: seq<Token>, n: N, i: nat, pos: nat)
    requires WellFormed(g) && pos < |toks| && i < |g.rules(n)|
    requires g.rules(n)[i].syms == [T(toks[pos].kind)]
    ensures ParseRules(g, toks, n, i, pos) == Conclude(g, n, i, Parsed(pos + 1, [Tok(toks[pos], pos)]))
  {
    var none: seq<Part<S>>, tok: Part<S> := [], Tok(toks[pos], pos);
    TokenStep(g, toks, n, i, 0, pos, pos, none);
    assert none + [tok] == [tok];
    TakeRule(g, toks, n, i, pos, Parsed(pos + 1, [tok]));
  }

  /** A rule of a terminal and a nonterminal: the token, then what the nonterminal
      built after it. */
  lemma TokenThenRule<N(!new), S(!new)>(g: Grammar<N, S>, toks: seq<Token>, n: N, i: nat, pos: nat,
                                        a: N, q: nat, v: S)
    requires WellFormed(g) && pos < |toks| && i < |g.rules(n)|
    requires g.rules(n)[i].syms == [T(toks[pos].kind), NT(a)]
    requires ParseNT(g, toks, a, pos + 1) == Parsed(q, v)
    ensures ParseRules(g, toks, n, i, pos) == Conclude(g, n, i, Parsed(q, [Tok(toks[pos], pos), Sub(v)]))
  {
    var none: seq<Part<S>>, tok: Part<S> := [], Tok(toks[pos], pos);
    TokenStep(g, toks, n, i, 0, pos, pos, none);
    SubStep(g, toks, n, i, 1, pos, pos + 1, none + [tok], q, v);
    assert none + [tok] + [Sub(v)] == [tok, Sub(v)];
    TakeRule(g, toks, n, i, pos, Parsed(q, [tok, Sub(v)]));
  }

  /** A rule of a terminal and two nonterminals: the token, then what each
      nonterminal built in turn. */
  lemma TokenThenTwoRule<N(!new), S(!new)>(g: Grammar<N, S>, toks: seq<Token>, n: N, i: nat, pos: nat,
                                           a: N, q: nat, v: S, b: N, r: nat, w: S)
    requires WellFormed(g) && pos < |toks| && i < |g.rules(n)|
    requires g.rules(n)[i].syms == [T(toks[pos].kind), NT(a), NT(b)]
    requires ParseNT(g, toks, a, pos + 1) == Parsed(q, v)
    requires q <= |toks| && ParseNT(g, toks, b, q) == Parsed(r, w)
    ensures ParseRules(g, toks, n, i, pos) == Conclude(g, n, i, Parsed(r, [Tok(toks[pos], pos), Sub(v), Sub(w)]))
  {
    var none: seq<Part<S>>, tok: Part<S> := [], Tok(toks[pos], pos);
    TokenStep(g, toks, n, i, 0, pos, pos, none);
    SubStep(g, toks, n, i, 1, pos, pos + 1, none + [tok], q, v);
    SubStep(g, toks, n, i, 2, pos, q, none + [tok] + [Sub(v)], r, w);
    assert none + [tok] + [Sub(v)] + [Sub(w)] == [tok, Sub(v), Sub(w)];
    TakeRule(g, toks, n, i, pos, Parsed(r, [tok, Sub(v), Sub(w)]));
  }

  /** A rule of two nonterminals: what each built in turn. */
  lemma TwoRule<N(!new), S(!new)>(g: Grammar<N, S>, toks: seq<Token>, n: N, i: nat, pos: nat,
                                  a: N, q: nat, v: S, b: N, r: nat, w: S)
    requires WellFormed(g) && pos <= |toks| && i < |g.rules(n)|
    requires g.rules(n)[i].syms == [NT(a), NT(b)]
    requires ParseNT(g, toks, a, pos) == Parsed(q, v)
    requires q <= |toks| && ParseNT(g, toks, b, q) == Parsed(r, w)
    ensures ParseRules(g, toks, n, i, pos) == Conclude(g, n, i, Parsed(r, [Sub(v), Sub(w)]))
  {
    var none: seq<Part<S>> := [];
    assert !Guarded(g.rules(n)[i].syms, 0);
    SubStep(g, toks, n, i, 0, pos, pos, none, q, v);
    assert !Guarded(g.rules(n)[i].syms, 1);
    SubStep(g, toks, n, i, 1, pos, q, none + [Sub(v)], r, w);
    assert none + [Sub(v)] + [Sub(w)] == [Sub(v), Sub(w)];
    TakeRule(g, toks, n, i, pos, Parsed(r, [Sub(v), Sub(w)]));
  }

  /** `do_parser(entry, tokens)`: the entry nonterminal at token 0, which must take
      every token. */
  function ParseAll<N(!new), S(!new)>(g: Grammar<N, S>, toks: seq<Token>, entry: N): (r: Result<S, Error>)
    requires WellFormed(g)
    ensures r.Success? ==> ParseNT(g, toks, entry, 0) == Parsed(|toks|, r.value) && g.inv(r.value)
    ensures ParseNT(g, toks, entry, 0).Parsed? ==>
      if ParseNT(g, toks, entry, 0).pos == |toks| then r.Success?
      else r == Failure(ExtraTokens(ParseNT(g, toks, entry, 0).pos))
    ensures ParseNT(g, toks, entry, 0).Soft? ==> r == Failure(BadSymbol)
    ensures ParseNT(g, toks, entry, 0).Hard? ==> r == Failure(ParseNT(g, toks, entry, 0).err)
  {
    match ParseNT(g, toks, entry, 0)
    case Parsed(p, v) => if p < |toks| then Failure(ExtraTokens(p)) else Success(v)
    case Soft => Failure(BadSymbol)
    case Hard(e) => Failure(e)
  }
}

/** `do_lexer`: longest-match tokenisation over the terminal catalogue. */
module Lexer {
  import opened Wrappers
  import opened Errors
  import opened Fields
  import opened Text
  import opened Terminals

  /** A token: its terminal, its cleaned-up fields and the character span it covers. */
  datatype Token = Token(kind: Terminal, fields: map<string, string>, start: nat, end: nat)

  /** The length of a recogniser's answer, 0 when it failed. */
  function Len(m: Option<Match>): nat {
    if m.Some? then m.value.len else 0
  }

  /** What every terminal of the catalogue matches at the head of s, in catalogue order. */
  function Matches(s: string): (ms: seq<Option<Match>>)
    ensures |ms| == |Catalogue|
    ensures forall i :: 0 <= i < |Catalogue| ==> ms[i] == Recognise(Catalogue[i], s)
    ensures forall i :: 0 <= i < |ms| && ms[i].Some? ==> 1 <= ms[i].value.len <= |s|
  {
    seq(|Catalogue|, i requires 0 <= i < |Catalogue| => Recognise(Catalogue[i], s))
  }

  /** The scan over the answers from index j on, with the best answer so far. */
  function BestFrom(ms: seq<Option<Match>>, j: nat, best: Option<(nat, Match)>): (r: Option<(nat, Match)>)
    requires j <= |ms|
    requires forall i :: 0 <= i < |ms| && ms[i].Some? ==> ms[i].value.len >= 1
    requires best.Some? ==> best.value.0 < j && ms[best.value.0] == Some(best.value.1)
    requires best.Some? ==> forall i :: 0 <= i < j ==> Len(ms[i]) <= best.value.1.len
    requires best.Some? ==> forall i :: 0 <= i < best.value.0 ==> Len(ms[i]) < best.value.1.len
    requires best.None? ==> forall i :: 0 <= i < j ==> ms[i].None?
    ensures r.Some? ==> r.value.0 < |ms| && ms[r.value.0] == Some(r.value.1)
    ensures r.Some? ==> forall i :: 0 <= i < |ms| ==> Len(ms[i]) <= r.value.1.len
    ensures r.Some? ==> forall i :: 0 <= i < r.value.0 ==> Len(ms[i]) < r.value.1.len
    ensures r.None? ==> forall i :: 0 <= i < |ms| ==> ms[i].None?
    decreases |ms| - j
  {
    if j == |ms| then best
    else
      match ms[j]
      case None => BestFrom(ms, j + 1, best)
      case Some(m) =>
        if best.None? || best.value.1.len < m.len then BestFrom(ms, j + 1, Some((j, m)))
        else BestFrom(ms, j + 1, best)
  }

  /** The answer the lexer picks among ms: the longest match, the earliest among
      equally long ones, and None exactly when nothing matches. */
  function BestOf(ms: seq<Option<Match>>): (r: Option<(nat, Match)>)
    requires forall i :: 0 <= i < |ms| && ms[i].Some? ==> ms[i].value.len >= 1
    ensures r.Some? ==> r.value.0 < |ms| && ms[r.value.0] == Some(r.value.1)
    ensures r.Some? ==> forall i :: 0 <= i < |ms| ==> Len(ms[i]) <= r.value.1.len
    ensures r.Some? ==> forall i :: 0 <= i < r.value.0 ==> Len(ms[i]) < r.value.1.len
    ensures r.None? <==> forall i :: 0 <= i < |ms| ==> ms[i].None?
  {
    BestFrom(ms, 0, None)
  }

  /** When answer k is as long as any answer can be and every earlier one is shorter,
      the lexer picks k. */
  lemma PicksFirstLongest(ms: seq<Option<Match>>, k: nat, bound: nat)
    requires forall i :: 0 <= i < |ms| && ms[i].Some? ==> 1 <= ms[i].value.len <= bound
    requires k < |ms| && 1 <= Len(ms[k]) == bound
    requires forall i :: 0 <= i < k ==> Len(ms[i]) < bound
    ensures BestOf(ms).Some? && BestOf(ms).value.0 == k
  {
    var b := BestOf(ms);
    assert ms[k].Some?;
    assert b.value.0 <= k;
  }

  /** The terminal the lexer picks at the head of s: the first of the longest
      matches in catalogue order, or nothing when no terminal matches. */
  function Best(s: string): (r: Option<(nat, Match)>)
    ensures r.Some? ==> r.value.0 < |Catalogue| && 1 <= r.value.1.len <= |s|
    ensures r.Some? && Catalogue[r.value.0] == WhitespaceT ==> forall k :: 0 <= k < r.value.1.len ==> IsSpace(s[k])
  {
    var ms := Matches(s);
    var r := BestOf(ms);
    assert r.Some? && Catalogue[r.value.0] == WhitespaceT ==> MatchSpace(s) == Some(r.value.1) by {
      if r.Some? && Catalogue[r.value.0] == WhitespaceT {
        assert ms[r.value.0] == Recognise(WhitespaceT, s);
      }
    }
    r
  }

  /** The lexer's pick is the first of the longest matches in catalogue order, and
      there is none only when no terminal matches. */
  lemma FirstLongest(s: string)
    ensures var r := Best(s);
      && (r.Some? ==> Recognise(Catalogue[r.value.0], s) == Some(r.value.1))
      && (r.Some? ==> forall i :: 0 <= i < |Catalogue| ==> Len(Recognise(Catalogue[i], s)) <= r.value.1.len)
      && (r.Some? ==> forall i :: 0 <= i < r.value.0 ==> Len(Recognise(Catalogue[i], s)) < r.value.1.len)
      && (r.None? <==> forall i :: 0 <= i < |Catalogue| ==> Recognise(Catalogue[i], s).None?)
  {
    assert Best(s) == BestOf(Matches(s));
  }

  /** Whether tok is what the lexer emits for the best match at its start. */
  predicate BestAt(text: string, tok: Token) {
    tok.start < tok.end <= |text|
    && var b := Best(text[tok.start..]);
       b.Some? && Catalogue[b.value.0] == tok.kind && b.value.1.len == tok.end - tok.start
       && tok.fields == Tweak(b.value.1.groups)
  }

  /** Whether the text from i up to j is whitespace. */
  predicate Blank(text: string, i: nat, j: nat) {
    forall k :: i <= k < j && k < |text| ==> IsSpace(text[k])
  }

  /** Whether toks are what the lexer emits for text from offset pos on: each token is
      the best match at its start, none is whitespace, they appear in text order,
      and only whitespace lies between and after them. */
  predicate Emitted(text: string, pos: nat, toks: seq<Token>)
    decreases |toks|
  {
    if |toks| == 0 then Blank(text, pos, |text|)
    else
      && !Ignored(toks[0].kind) && pos <= toks[0].start && Blank(text, pos, toks[0].start)
      && BestAt(text, toks[0]) && Emitted(text, toks[0].end, toks[1..])
  }

  /** Whitespace in front of what was emitted from j on is part of what was
      emitted from i on. */
  lemma BlankPrefix(text: string, i: nat, j: nat, toks: seq<Token>)
    requires i <= j && Blank(text, i, j) && Emitted(text, j, toks)
    ensures Emitted(text, i, toks)
  {
  }

  /** The lexer's answer at a position where some terminal matches. */
  function TokenAt(text: string, pos: nat): (r: Option<(Terminal, Token)>)
    requires pos < |text|
    ensures r.Some? ==>
      pos < r.value.1.end <= |text| && r.value.1.start == pos && r.value.1.kind == r.value.0 && BestAt(text, r.value.1)
    ensures r.None? <==> Best(text[pos..]).None?
  {
    match Best(text[pos..])
    case None => None
    case Some((k, m)) => Some((Catalogue[k], Token(Catalogue[k], Tweak(m.groups), pos, pos + m.len)))
  }

  /** Whether the chain of longest matches from pos, each starting where the one
      before it ended, arrives at offset at. */
  predicate Reaches(text: string, pos: nat, at: nat)
    requires pos <= |text|
    decreases |text| - pos
  {
    pos == at || (pos < |text| && TokenAt(text, pos).Some? && Reaches(text, TokenAt(text, pos).value.1.end, at))
  }

  /** The chain stops at the first offset where nothing matches, so there is at
      most one such offset on it. */
  lemma {:induction false} StopsOnce(text: string, pos: nat, a: nat, b: nat)
    requires pos <= |text| && Reaches(text, pos, a) && Reaches(text, pos, b)
    requires a < |text| && Best(text[a..]).None? && b < |text| && Best(text[b..]).None?
    ensures a == b
    decreases |text| - pos
  {
    if pos != a && pos != b {
      StopsOnce(text, TokenAt(text, pos).value.1.end, a, b);
    }
  }

  /** The scan from character offset pos on. */
  function Scan(text: string, pos: nat): (r: Result<seq<Token>, Error>)
    requires pos <= |text|
    ensures r.Success? ==> Emitted(text, pos, r.value)
    ensures r.Failure? ==>
      r.error.BadToken? && pos <= r.error.charPos < |text| && Best(text[r.error.charPos..]).None?
      && Reaches(text, pos, r.error.charPos)
    decreases |text| - pos
  {
    if pos == |text| then Success([])
    else
      match TokenAt(text, pos)
      case None => Failure(BadToken(pos))
      case Some((kind, tok)) =>
        var rest :- Scan(text, tok.end);
        if Ignored(kind) then
          SkipBlank(text, pos, kind, tok, rest);
          Success(rest)
        else
          EmitOne(text, pos, kind, tok, rest);
          Success([tok] + rest)
  }

  /** A whitespace token in front of what was emitted adds nothing to it. */
  lemma SkipBlank(text: string, pos: nat, kind: Terminal, tok: Token, rest: seq<Token>)
    requires pos < |text| && TokenAt(text, pos) == Some((kind, tok)) && Ignored(kind)
    requires Emitted(text, tok.end, rest)
    ensures Emitted(text, pos, rest)
  {
    var s := text[pos..];
    var b := Best(s);
    assert b.Some? && Catalogue[b.value.0] == WhitespaceT && tok.end == pos + b.value.1.len;
    SpaceRunAt(text, pos, b.value.1.len);
    BlankPrefix(text, pos, tok.end, rest);
  }

  /** A whitespace run at the head of the text from pos on is blank text. */
  lemma SpaceRunAt(text: string, pos: nat, n: nat)
    requires pos + n <= |text|
    requires forall k :: 0 <= k < n ==> IsSpace(text[pos..][k])
    ensures Blank(text, pos, pos + n)
  {
    forall k | pos <= k < pos + n
      ensures IsSpace(text[k])
    {
      assert text[k] == text[pos..][k - pos];
    }
  }

  /** A token the lexer keeps, in front of what was emitted after it. */
  lemma EmitOne(text: string, pos: nat, kind: Terminal, tok: Token, rest: seq<Token>)
    requires pos < |text| && TokenAt(text, pos) == Some((kind, tok)) && !Ignored(kind)
    requires Emitted(text, tok.end, rest)
    ensures Emitted(text, pos, [tok] + rest)
  {
    assert ([tok] + rest)[1..] == rest;
  }

  /** At a whitespace character the best match is the whole whitespace run. */
  lemma BestAtSpace(s: string)
    requires |s| > 0 && IsSpace(s[0])
    ensures Best(s).Some? && Catalogue[Best(s).value.0] == WhitespaceT
    ensures Best(s).value.1 == MatchSpace(s).value
  {
    forall i | 0 <= i < |Catalogue| - 1
      ensures Recognise(Catalogue[i], s).None?
    {
      OnlySpaceAtSpace(Catalogue[i], s);
    }
    assert Recognise(Catalogue[14], s) == MatchSpace(s);
    FirstLongest(s);
  }

  /** A token the lexer keeps does not start with whitespace. */
  lemma KeptStartsSolid(text: string, tok: Token)
    requires BestAt(text, tok) && !Ignored(tok.kind)
    ensures !IsSpace(text[tok.start])
  {
    if IsSpace(text[tok.start]) {
      BestAtSpace(text[tok.start..]);
    }
  }

  /** The scan over whitespace in front of what was emitted from pos on. */
  lemma {:induction false} SpaceStep(text: string, pos: nat, toks: seq<Token>)
    requires pos < |text| && IsSpace(text[pos]) && Emitted(text, pos, toks)
    ensures TokenAt(text, pos).Some? && Ignored(TokenAt(text, pos).value.0)
    ensures Emitted(text, TokenAt(text, pos).value.1.end, toks)
  {
    BestAtSpace(text[pos..]);
    var tok := TokenAt(text, pos).value.1;
    var n := tok.end - pos;
    forall k | pos <= k < tok.end
      ensures IsSpace(text[k])
    {
      assert text[k] == text[pos..][k - pos];
    }
    if |toks| > 0 {
      KeptStartsSolid(text, toks[0]);
      assert tok.end <= toks[0].start;
    }
  }

  /** The longest-match scan is the only way to cut text into tokens: whatever is
      emitted from pos on is what the scan produces. */
  lemma {:induction false} ScanComplete(text: string, pos: nat, toks: seq<Token>)
    requires pos <= |text| && Emitted(text, pos, toks)
    ensures Scan(text, pos) == Success(toks)
    decreases |text| - pos
  {
    if pos == |text| {
      assert |toks| == 0;
    } else if |toks| == 0 || pos < toks[0].start {
      SpaceStep(text, pos, toks);
      ScanComplete(text, TokenAt(text, pos).value.1.end, toks);
      ScanStep(text, pos);
    } else {
      TokenAtBest(text, toks[0]);
      ScanComplete(text, toks[0].end, toks[1..]);
      ScanStep(text, pos);
      assert [toks[0]] + toks[1..] == toks;
    }
  }

  /** A token that is the best match at its start is what the lexer reads there. */
  lemma TokenAtBest(text: string, tok: Token)
    requires BestAt(text, tok)
    ensures TokenAt(text, tok.start) == Some((tok.kind, tok))
  {
    var b := Best(text[tok.start..]).value;
    assert TokenAt(text, tok.start) == Some((Catalogue[b.0], Token(Catalogue[b.0], Tweak(b.1.groups), tok.start, tok.start + b.1.len)));
  }

  /** One step of the scan where some terminal matches: the match is dropped or
      kept in front of what the scan makes of the rest. */
  lemma ScanStep(text: string, pos: nat)
    requires pos < |text| && TokenAt(text, pos).Some?
    ensures var (kind, tok) := TokenAt(text, pos).value;
      Scan(text, pos) == match Scan(text, tok.end)
        case Failure(e) => Failure(e)
        case Success(rest) => Success(if Ignored(kind) then rest else [tok] + rest)
  {
  }

  /** `do_lexer(text)`: the tokens of text, whitespace dropped, whenever text can be
      cut into tokens at all; otherwise BadToken at the offset where the chain of
      longest matches from the start finds nothing. */
  function Tokenize(text: string): (r: Result<seq<Token>, Error>)
    ensures r.Success? ==> Emitted(text, 0, r.value)
    ensures forall toks :: Emitted(text, 0, toks) ==> r == Success(toks)
    ensures r.Failure? ==>
      r.error.BadToken? && r.error.charPos < |text| && Best(text[r.error.charPos..]).None?
      && Reaches(text, 0, r.error.charPos)
  {
    forall toks | Emitted(text, 0, toks)
      ensures Scan(text, 0) == Success(toks)
    {
      ScanComplete(text, 0, toks);
    }
    Scan(text, 0)
  }
}

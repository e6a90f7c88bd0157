/**
  What the recursive-descent parser computes, as functions of the tokens still to read,
  the nesting depth and the operator count. `Parser.dfy` proves the field-updating parser
  equal to these; `GrammarTheorem.dfy` proves these equal to the grammar.
 */
module ParserSpec {
  import opened Ast

  datatype ParseError = TooDeep | TooManyOps | Syntax

  /** Either a value and what is left to read, or an error and the tokens it points at. */
  datatype Outcome<+T> = Parsed(value: T, rest: Tokens, ops: int) | Failed(error: ParseError, at: Tokens)

  predicate Next(ts: Tokens, t: Token)
  {
    ts.Tok? && ts.head == t
  }

  function CloseBracket(ts: Tokens, s: PathSegment): (r: Outcome<PathSegment>)
    ensures r.Parsed? ==> Len(r.rest) < Len(ts)
  {
    if Next(ts, TRBracket) then Parsed(s, ts.rest, 0) else Failed(Syntax, ts)
  }

  /** `?` is consumed: `( @ . field == 'literal' ) ]`. */
  function Filter(ts0: Tokens): (r: Outcome<PathSegment>)
    ensures r.Parsed? ==> Len(r.rest) < Len(ts0)
  {
    if !Next(ts0, TLParen) then Failed(Syntax, ts0) else
    var ts1 := ts0.rest;
    if !Next(ts1, TAt) then Failed(Syntax, ts1) else
    var ts2 := ts1.rest;
    if !Next(ts2, TDot) then Failed(Syntax, ts2) else
    assert Len(ts0) == 1 + Len(ts1) && Len(ts1) == 1 + Len(ts2);
    FilterTest(ts2.rest)
  }

  function FilterTest(ts0: Tokens): (r: Outcome<PathSegment>)
    ensures r.Parsed? ==> Len(r.rest) < Len(ts0)
  {
    if !(ts0.Tok? && ts0.head.TIdent?) then Failed(Syntax, ts0) else
    var ts1 := ts0.rest;
    if !Next(ts1, TOp(Eq)) then Failed(Syntax, ts1) else
    var ts2 := ts1.rest;
    if !(ts2.Tok? && ts2.head.TString?) then Failed(Syntax, ts2) else
    var ts3 := ts2.rest;
    if !Next(ts3, TRParen) then Failed(Syntax, ts3) else
    assert Len(ts0) == 1 + Len(ts1) && Len(ts1) == 1 + Len(ts2) && Len(ts2) == 1 + Len(ts3);
    CloseBracket(ts3.rest, FilterEq(ts0.head.name, ts2.head.s))
  }

  /** `[` is consumed; the result is the segment and what follows `]`. */
  function Bracket(ts: Tokens): (r: Outcome<PathSegment>)
    ensures r.Parsed? ==> Len(r.rest) < Len(ts)
  {
    if ts.Eof? then Failed(Syntax, ts)
    else
      match ts.head
      case TStar => CloseBracket(ts.rest, Wildcard)
      case TNumber(n) =>
        if n < 0.0 || n != n.Floor as real then Failed(Syntax, ts)
        else CloseBracket(ts.rest, Index(ClampIndex(n)))
      case TQuestion => Filter(ts.rest)
      case _ => Failed(Syntax, ts)
  }

  /** One segment, when the next token starts one. */
  function Segment(ts: Tokens): (r: Outcome<PathSegment>)
    requires Next(ts, TDot) || Next(ts, TLBracket)
    ensures r.Parsed? ==> Len(r.rest) < Len(ts)
  {
    if ts.head == TLBracket then Bracket(ts.rest)
    else if ts.rest.Tok? && ts.rest.head.TIdent? then Parsed(Field(ts.rest.head.name), ts.rest.rest, 0)
    else Failed(Syntax, ts.rest)
  }

  function Path(ts: Tokens): (r: Outcome<seq<PathSegment>>)
    ensures r.Parsed? ==> Len(r.rest) <= Len(ts)
    decreases Len(ts)
  {
    if Next(ts, TDot) || Next(ts, TLBracket) then
      match Segment(ts)
      case Failed(e, at) => Failed(e, at)
      case Parsed(s, ts1, _) => Prepend([s], Path(ts1))
    else Parsed([], ts, 0)
  }

  function Prepend(segs: seq<PathSegment>, r: Outcome<seq<PathSegment>>): Outcome<seq<PathSegment>>
  {
    match r
    case Failed(_, _) => r
    case Parsed(more, rest, o) => Parsed(segs + more, rest, o)
  }

  lemma {:induction false} PrependEach(segs: seq<PathSegment>, s: PathSegment, r: Outcome<seq<PathSegment>>)
    ensures Prepend([], r) == r
    ensures Prepend(segs, Prepend([s], r)) == Prepend(segs + [s], r)
  {
    if r.Parsed? {
      assert [] + r.value == r.value;
      assert segs + ([s] + r.value) == segs + [s] + r.value;
    }
  }

  /** `$` is consumed: the root the next tokens name. */
  function RootAt(ts: Tokens): (r: Outcome<Root>)
    ensures r.Parsed? ==> Len(r.rest) <= Len(ts)
  {
    if !(ts.Tok? && ts.head.TIdent?) then Parsed(Implicit, ts, 0)
    else
      var name := ts.head.name;
      if name == "input" then Parsed(Input, ts.rest, 0)
      else if name == "config" then Parsed(Config, ts.rest, 0)
      else if name == "secrets" then Parsed(Secrets, ts.rest, 0)
      else if name == "trigger" then Parsed(Trigger, ts.rest, 0)
      else if name == "vars" then Parsed(Vars, ts.rest, 0)
      else if name == "item" then Parsed(Item, ts.rest, 0)
      else if name == "steps" then StepsRoot(ts.rest)
      else Failed(Syntax, ts)
  }

  function StepsRoot(ts: Tokens): (r: Outcome<Root>)
    ensures r.Parsed? ==> Len(r.rest) <= Len(ts)
  {
    if !Next(ts, TDot) then Failed(Syntax, ts)
    else if ts.rest.Tok? && ts.rest.head.TIdent? then Parsed(Steps(ts.rest.head.name), ts.rest.rest, 0)
    else Failed(Syntax, ts.rest)
  }

  function RefAt(ts: Tokens): (r: Outcome<Reference>)
    ensures r.Parsed? ==> Len(r.rest) < Len(ts)
  {
    if !Next(ts, TDollar) then Failed(Syntax, ts)
    else
      match RootAt(ts.rest)
      case Failed(e, at) => Failed(e, at)
      case Parsed(root, ts1, _) =>
        match Path(ts1)
        case Failed(e, at) => Failed(e, at)
        case Parsed(path, ts2, _) => Parsed(Reference(root, path), ts2, 0)
  }

  /** The next token is an operator of level `k`. */
  predicate IsOpAt(ts: Tokens, k: nat)
  {
    ts.Tok? && ts.head.TOp? && Precedence(ts.head.op) == k
  }

  /** One of the five binary levels, 0 to 4, or level 5, `!`. */
  function LevelAt(ts: Tokens, d: int, o: int, k: nat): (r: Outcome<Expression>)
    requires k <= UNARY
    ensures r.Parsed? ==> Len(r.rest) < Len(ts)
    decreases Len(ts), 2, UNARY - k
  {
    if k == UNARY then UnaryAt(ts, d, o)
    else
      match LevelAt(ts, d, o, k + 1)
      case Failed(e, at) => Failed(e, at)
      case Parsed(left, ts1, o1) => LoopAt(ts1, d, o1, k, left)
  }

  /** The `while` loop of a binary level, entered with `left` already parsed. */
  function LoopAt(ts: Tokens, d: int, o: int, k: nat, left: Expression): (r: Outcome<Expression>)
    requires k < UNARY
    ensures r.Parsed? ==> Len(r.rest) <= Len(ts)
    decreases Len(ts), 0, 0
  {
    if !IsOpAt(ts, k) then Parsed(left, ts, o)
    else if o + 1 > MAX_EXPR_OPS then Failed(TooManyOps, ts)
    else
      match LevelAt(ts.rest, d, o + 1, k + 1)
      case Failed(e, at) => Failed(e, at)
      case Parsed(right, ts1, o1) => LoopAt(ts1, d, o1, k, Binary(ts.head.op, left, right))
  }

  function UnaryAt(ts: Tokens, d: int, o: int): (r: Outcome<Expression>)
    ensures r.Parsed? ==> Len(r.rest) < Len(ts)
    decreases Len(ts), 1, 0
  {
    if !Next(ts, TBang) then PrimaryAt(ts, d, o)
    else if d + 1 > MAX_EXPR_DEPTH then Failed(TooDeep, ts)
    else
      match UnaryAt(ts.rest, d + 1, o)
      case Failed(e, at) => Failed(e, at)
      case Parsed(e, ts1, o1) => Parsed(Not(e), ts1, o1)
  }

  function PrimaryAt(ts: Tokens, d: int, o: int): (r: Outcome<Expression>)
    ensures r.Parsed? ==> Len(r.rest) < Len(ts)
    decreases Len(ts), 0, 0
  {
    if Next(ts, TLParen) then
      if d + 1 > MAX_EXPR_DEPTH then Failed(TooDeep, ts)
      else
        match LevelAt(ts.rest, d + 1, o, 0)
        case Failed(e, at) => Failed(e, at)
        case Parsed(e, ts1, o1) =>
          if Next(ts1, TRParen) then Parsed(e, ts1.rest, o1) else Failed(Syntax, ts1)
    else if Next(ts, TDollar) then
      match RefAt(ts)
      case Failed(e, at) => Failed(e, at)
      case Parsed(ref, ts1, _) => Parsed(Ref(ref), ts1, o)
    else LiteralAt(ts, o)
  }

  function LiteralAt(ts: Tokens, o: int): (r: Outcome<Expression>)
    ensures r.Parsed? ==> Len(r.rest) < Len(ts) && r.ops == o
  {
    if ts.Eof? then Failed(Syntax, ts)
    else
      match ts.head
      case TString(s) => Parsed(Lit(Str(s)), ts.rest, o)
      case TNumber(n) => Parsed(Lit(Number(n)), ts.rest, o)
      case TTrue => Parsed(Lit(Bool(true)), ts.rest, o)
      case TFalse => Parsed(Lit(Bool(false)), ts.rest, o)
      case TNull => Parsed(Lit(Null), ts.rest, o)
      case _ => Failed(Syntax, ts)
  }

  /** A whole token list as an expression: nothing may follow it. */
  function ParseTokens(ts: Tokens): Outcome<Expression>
  {
    match LevelAt(ts, 0, 0, 0)
    case Failed(e, at) => Failed(e, at)
    case Parsed(e, ts1, o) => if ts1.Eof? then Parsed(e, ts1, o) else Failed(Syntax, ts1)
  }
}

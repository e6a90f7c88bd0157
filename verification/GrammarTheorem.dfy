/** The parser accepts exactly what the grammar derives within the two limits. */
module GrammarTheorem {
  import opened Ast
  import opened Grammar
  import opened ParserSpec

  /** What may stand after a phrase of level `k`. */
  predicate Follow(ts: Tokens, k: nat)
  {
    ts.Eof? || ts.head == TRParen || (ts.head.TOp? && Precedence(ts.head.op) <= k)
  }

  predicate Fits(c: Cst, d: int, o: int)
  {
    d + Nesting(c) <= MAX_EXPR_DEPTH && o + Ops(c) <= MAX_EXPR_OPS
  }

  predicate LimitError(r: Outcome<Expression>)
  {
    r.Failed? && !r.error.Syntax?
  }

  // ------------------------------------------------------------ completeness

  lemma {:induction false} CompletePath(p: CPath, rest: Tokens)
    requires PathOk(p) && !Next(rest, TDot) && !Next(rest, TLBracket)
    ensures Path(SpellPath(p, rest)) == Parsed(PathAst(p), rest, 0)
  {
    hide Segment, SpellSeg, SegAst;
    if p.Step? {
      var ts := SpellPath(p.next, rest);
      CompletePath(p.next, rest);
      assert SpellPath(p, rest) == SpellSeg(p.seg, ts);
      CompleteSegment(p.seg, ts);
    }
  }

  lemma {:induction false} CompleteSegment(s: CSeg, ts: Tokens)
    requires IndexOk(s)
    ensures var all := SpellSeg(s, ts);
      (Next(all, TDot) || Next(all, TLBracket)) && Segment(all) == Parsed(SegAst(s), ts, 0)
  {
  }

  lemma {:induction false} CompleteRef(root: Root, p: CPath, rest: Tokens)
    requires PathOk(p) && Follow(rest, PRIMARY)
    ensures RefAt(Spell(CRef(root, p), rest)) == Parsed(Reference(root, PathAst(p)), rest, 0)
  {
    hide Path, PathAst, RootAt, SpellRoot;
    CompletePath(p, rest);
    CompleteRoot(root, SpellPath(p, rest));
  }

  lemma {:induction false} CompleteRoot(root: Root, ts: Tokens)
    requires root.Implicit? ==> !(ts.Tok? && ts.head.TIdent?)
    ensures RootAt(SpellRoot(root, ts)) == Parsed(root, ts, 0)
  {
  }

  /**
    What parsing `c` at a level comes to: a limit error exactly when `c` does not fit, and
    otherwise the loop of that level, entered just after `c`.
   */
  predicate AfterPhrase(c: Cst, rest: Tokens, d: int, o: int, k: nat, r: Outcome<Expression>)
    requires k <= UNARY
  {
    if !Fits(c, d, o) then LimitError(r)
    else if k < UNARY then r == LoopAt(rest, d, o + Ops(c), k, AstOf(c))
    else r == Parsed(AstOf(c), rest, o + Ops(c))
  }

  lemma {:induction false} Complete(c: Cst, rest: Tokens, d: int, o: int, k: nat)
    requires k <= UNARY && InLevel(c, k) && Follow(rest, k)
    requires d <= MAX_EXPR_DEPTH && o <= MAX_EXPR_OPS
    ensures AfterPhrase(c, rest, d, o, k, LevelAt(Spell(c, rest), d, o, k))
    decreases c, 2, UNARY - k
  {
    hide Spell, AfterPhrase;
    if k == UNARY {
      CompleteUnary(c, rest, d, o);
    } else if c.CBin? && Precedence(c.op) == k {
      CompleteBinary(c.op, c.left, c.right, rest, d, o);
    } else {
      Complete(c, rest, d, o, k + 1);
      LevelBelow(c, Spell(c, rest), rest, d, o, k);
    }
  }

  lemma {:induction false} LevelBelow(c: Cst, ts: Tokens, rest: Tokens, d: int, o: int, k: nat)
    requires k < UNARY && Follow(rest, k)
    requires AfterPhrase(c, rest, d, o, k + 1, LevelAt(ts, d, o, k + 1))
    ensures AfterPhrase(c, rest, d, o, k, LevelAt(ts, d, o, k))
  {
    hide Fits, UnaryAt;
  }

  lemma {:induction false} CompleteBinary(op: BinaryOp, l: Cst, r: Cst, rest: Tokens, d: int, o: int)
    requires InLevel(CBin(op, l, r), Precedence(op)) && Follow(rest, Precedence(op))
    requires d <= MAX_EXPR_DEPTH && o <= MAX_EXPR_OPS
    ensures var c, k := CBin(op, l, r), Precedence(op);
      AfterPhrase(c, rest, d, o, k, LevelAt(Spell(c, rest), d, o, k))
    decreases CBin(op, l, r), 1, 0
  {
    hide LevelAt, LoopAt, Spell, AstOf, Ops, Nesting, Fits, LimitError;
    var mid := Tok(TOp(op), Spell(r, rest));
    Complete(l, mid, d, o, Precedence(op));
    BinaryMeasures(op, l, r, rest, d, o);
    if Fits(l, d, o) {
      LoopTurn(op, AstOf(l), r, rest, d, o + Ops(l));
    }
  }

  lemma BinaryMeasures(op: BinaryOp, l: Cst, r: Cst, rest: Tokens, d: int, o: int)
    ensures var c := CBin(op, l, r);
      && Spell(c, rest) == Spell(l, Tok(TOp(op), Spell(r, rest)))
      && AstOf(c) == Binary(op, AstOf(l), AstOf(r))
      && o + Ops(c) == o + Ops(l) + 1 + Ops(r)
      && (Fits(c, d, o) <==> Fits(l, d, o) && Fits(r, d, o + Ops(l) + 1))
      && (Fits(l, d, o) ==> o + Ops(l) <= MAX_EXPR_OPS)
  {
  }

  /** One turn of a binary level's loop. */
  lemma {:induction false} LoopTurn(op: BinaryOp, left: Expression, r: Cst, rest: Tokens, d: int, o: int)
    requires InLevel(r, Precedence(op) + 1) && Follow(rest, Precedence(op))
    requires d <= MAX_EXPR_DEPTH && o <= MAX_EXPR_OPS
    ensures var k, x := Precedence(op), LoopAt(Tok(TOp(op), Spell(r, rest)), d, o, Precedence(op), left);
      if Fits(r, d, o + 1) then x == LoopAt(rest, d, o + 1 + Ops(r), k, Binary(op, left, AstOf(r))) else LimitError(x)
    decreases r, 3, 0
  {
    hide Spell, AstOf, LevelAt, LoopAt, Ops, Nesting, Fits, InLevel;
    FitsLeavesRoom(r, d, o + 1);
    LoopTakes(op, Spell(r, rest), d, o, left);
    if o < MAX_EXPR_OPS {
      Complete(r, rest, d, o + 1, Precedence(op) + 1);
      LoopStops(rest, d, o + 1 + Ops(r), Precedence(op) + 1, AstOf(r));
    }
  }

  lemma {:induction false} LoopTakes(op: BinaryOp, body: Tokens, d: int, o: int, left: Expression)
    ensures var k := Precedence(op);
      LoopAt(Tok(TOp(op), body), d, o, k, left) ==
      if o + 1 > MAX_EXPR_OPS then Failed(TooManyOps, Tok(TOp(op), body))
      else match LevelAt(body, d, o + 1, k + 1)
           case Failed(e, at) => Failed(e, at)
           case Parsed(right, ts1, o1) => LoopAt(ts1, d, o1, k, Binary(op, left, right))
  {
    hide LevelAt;
  }

  lemma {:induction false} LoopStops(ts: Tokens, d: int, o: int, k: nat, left: Expression)
    requires k < UNARY ==> !IsOpAt(ts, k)
    ensures k < UNARY ==> LoopAt(ts, d, o, k, left) == Parsed(left, ts, o)
  {
  }

  lemma {:induction false} FitsLeavesRoom(c: Cst, d: int, o: int)
    ensures Fits(c, d, o) ==> d <= MAX_EXPR_DEPTH && o <= MAX_EXPR_OPS
  {
  }

  lemma {:induction false} CompleteUnary(c: Cst, rest: Tokens, d: int, o: int)
    requires InLevel(c, UNARY) && Follow(rest, UNARY)
    requires d <= MAX_EXPR_DEPTH && o <= MAX_EXPR_OPS
    ensures AfterPhrase(c, rest, d, o, UNARY, UnaryAt(Spell(c, rest), d, o))
    decreases c, 0, 0
  {
    hide LevelAt, LoopAt, RefAt;
    match c
    case CNot(e) =>
      if d < MAX_EXPR_DEPTH {
        CompleteUnary(e, rest, d + 1, o);
      }
    case CParen(e) => CompleteParen(e, rest, d, o);
    case CRef(root, p) => CompleteRef(root, p, rest);
    case CLit(_) =>
  }

  lemma {:induction false} CompleteParen(e: Cst, rest: Tokens, d: int, o: int)
    requires InLevel(e, 0) && Follow(rest, UNARY)
    requires d <= MAX_EXPR_DEPTH && o <= MAX_EXPR_OPS
    ensures AfterPhrase(CParen(e), rest, d, o, UNARY, PrimaryAt(Spell(CParen(e), rest), d, o))
    decreases e, 3, 0
  {
    hide LevelAt, RefAt;
    if d < MAX_EXPR_DEPTH {
      Complete(e, Tok(TRParen, rest), d + 1, o, 0);
    }
  }

  // ------------------------------------------------------------ soundness

  /** `c` is a derivation of level `k` for the tokens of `ts` that `r` consumed. */
  ghost predicate Explains(c: Cst, ts: Tokens, d: int, o: int, k: nat, r: Outcome<Expression>)
  {
    r.Parsed? && InLevel(c, k) && ts == Spell(c, r.rest) && r.value == AstOf(c) && r.ops == o + Ops(c) && Fits(c, d, o)
  }

  lemma {:induction false} SoundPath(ts: Tokens) returns (p: CPath)
    requires Path(ts).Parsed?
    ensures PathOk(p) && ts == SpellPath(p, Path(ts).rest) && Path(ts).value == PathAst(p)
    decreases Len(ts)
  {
    if Next(ts, TDot) || Next(ts, TLBracket) {
      var s := SoundSegment(ts);
      var next := SoundPath(Segment(ts).rest);
      p := Step(s, next);
    } else {
      p := End;
    }
  }

  lemma {:induction false} SoundSegment(ts: Tokens) returns (s: CSeg)
    requires (Next(ts, TDot) || Next(ts, TLBracket)) && Segment(ts).Parsed?
    ensures IndexOk(s) && ts == SpellSeg(s, Segment(ts).rest) && Segment(ts).value == SegAst(s)
  {
    if ts.head == TDot {
      s := CField(ts.rest.head.name);
    } else {
      match ts.rest.head
      case TStar => s := CWild;
      case TNumber(n) => s := CIndex(n);
      case TQuestion => s := CFilter(Segment(ts).value.field, Segment(ts).value.value);
    }
  }

  lemma {:induction false} SoundRef(ts: Tokens) returns (c: Cst)
    requires RefAt(ts).Parsed?
    ensures c.CRef? && InLevel(c, PRIMARY) && ts == Spell(c, RefAt(ts).rest) && AstOf(c) == Ref(RefAt(ts).value)
  {
    var r := RootAt(ts.rest);
    var p := SoundPath(r.rest);
    assert ts.rest == SpellRoot(r.value, r.rest);
    c := CRef(r.value, p);
  }

  lemma {:induction false} Sound(ts: Tokens, d: int, o: int, k: nat) returns (c: Cst)
    requires k <= UNARY && LevelAt(ts, d, o, k).Parsed?
    requires d <= MAX_EXPR_DEPTH && o <= MAX_EXPR_OPS
    ensures Explains(c, ts, d, o, k, LevelAt(ts, d, o, k))
    decreases Len(ts), 2, UNARY - k
  {
    hide Spell, AstOf, Ops, Nesting, Fits, UnaryAt, LoopAt;
    if k == UNARY {
      c := SoundUnary(ts, d, o);
    } else {
      var l := Sound(ts, d, o, k + 1);
      var r := LevelAt(ts, d, o, k + 1);
      c := SoundLoop(ts, r.rest, d, o, k, l);
    }
  }

  lemma {:induction false} SoundLoop(start: Tokens, ts: Tokens, d: int, o: int, k: nat, l: Cst) returns (c: Cst)
    requires k < UNARY && InLevel(l, k) && start == Spell(l, ts) && Fits(l, d, o)
    requires LoopAt(ts, d, o + Ops(l), k, AstOf(l)).Parsed?
    ensures Explains(c, start, d, o, k, LoopAt(ts, d, o + Ops(l), k, AstOf(l)))
    decreases Len(ts), 0, 0
  {
    hide Spell, AstOf, Ops, Nesting, Fits, LevelAt;
    FitsLeavesRoom(l, d, o);
    if IsOpAt(ts, k) {
      var r := Sound(ts.rest, d, o + Ops(l) + 1, k + 1);
      var ts1 := LevelAt(ts.rest, d, o + Ops(l) + 1, k + 1).rest;
      var b := CBin(ts.head.op, l, r);
      BinaryMeasures(ts.head.op, l, r, ts1, d, o);
      c := SoundLoop(start, ts1, d, o, k, b);
    } else {
      c := l;
    }
  }

  lemma {:induction false} SoundUnary(ts: Tokens, d: int, o: int) returns (c: Cst)
    requires UnaryAt(ts, d, o).Parsed?
    requires d <= MAX_EXPR_DEPTH && o <= MAX_EXPR_OPS
    ensures Explains(c, ts, d, o, UNARY, UnaryAt(ts, d, o))
    decreases Len(ts), 1, 0
  {
    hide LevelAt, LoopAt, RefAt;
    if Next(ts, TBang) {
      var e := SoundUnary(ts.rest, d + 1, o);
      c := CNot(e);
    } else if Next(ts, TLParen) {
      var e := Sound(ts.rest, d + 1, o, 0);
      c := CParen(e);
    } else if Next(ts, TDollar) {
      c := SoundRef(ts);
    } else {
      c := CLit(LiteralAt(ts, o).value.l);
    }
  }

  // ------------------------------------------------------------ main results

  /** `c` derives the whole token list and means `e`. */
  ghost predicate Derives(c: Cst, ts: Tokens, e: Expression)
  {
    InLevel(c, 0) && Spell(c, Eof) == ts && AstOf(c) == e
  }

  /** Every derivation parses to its own tree, or to a limit error when it exceeds a limit. */
  lemma {:induction false} DerivationParses(c: Cst)
    requires InLevel(c, 0)
    ensures WithinLimits(c) ==> ParseTokens(Spell(c, Eof)) == Parsed(AstOf(c), Eof, Ops(c))
    ensures !WithinLimits(c) ==> LimitError(ParseTokens(Spell(c, Eof)))
  {
    Complete(c, Eof, 0, 0, 0);
  }

  lemma {:induction false} AcceptedDerivation(ts: Tokens) returns (c: Cst)
    requires ParseTokens(ts).Parsed?
    ensures Derives(c, ts, ParseTokens(ts).value) && WithinLimits(c) && ParseTokens(ts).ops == Ops(c)
  {
    c := Sound(ts, 0, 0, 0);
  }

  /** Accepted with tree `e` exactly when the grammar derives `e` within both limits. */
  lemma {:induction false} AcceptsExactlyTheGrammar(ts: Tokens, e: Expression)
    ensures (ParseTokens(ts).Parsed? && ParseTokens(ts).value == e)
      <==> exists c :: Derives(c, ts, e) && WithinLimits(c)
  {
    if ParseTokens(ts).Parsed? {
      var c := AcceptedDerivation(ts);
    }
    if c :| Derives(c, ts, e) && WithinLimits(c) {
      DerivationParses(c);
    }
  }

  /** A syntax error is reported only for a token list no derivation spells. */
  lemma {:induction false} SyntaxErrorMeansUnderivable(c: Cst)
    requires InLevel(c, 0)
    ensures ParseTokens(Spell(c, Eof)).Failed? ==> LimitError(ParseTokens(Spell(c, Eof)))
  {
    DerivationParses(c);
  }

  /** No token list, within the limits or not, derives two trees. */
  lemma {:induction false} GrammarUnambiguous(a: Cst, b: Cst)
    requires InLevel(a, 0) && InLevel(b, 0) && Spell(a, Eof) == Spell(b, Eof)
    ensures AstOf(a) == AstOf(b)
  {
    hide Spell, AstOf, LevelAt;
    // The same parse, started with budgets large enough for both derivations.
    var d := MAX_EXPR_DEPTH - Nesting(a) - Nesting(b);
    var o := MAX_EXPR_OPS - Ops(a) - Ops(b);
    Complete(a, Eof, d, o, 0);
    Complete(b, Eof, d, o, 0);
  }

  // ------------------------------------------------------------ what the levels mean

  /** The rows of the precedence table, the loosest first. */
  const TABLE: seq<set<BinaryOp>> := [{Coalesce}, {Or}, {And}, {Eq, NotEq}, {Lt, Le, Gt, Ge}]

  lemma {:induction false} TableIsPrecedence(op: BinaryOp)
    ensures Precedence(op) < 5 && forall row | 0 <= row < |TABLE| :: op in TABLE[row] <==> row == Precedence(op)
  {
  }

  /**
   * Between operands that bind tighter than any binary operator, the operator of the lower row binds first, whichever
   * side it stands on; of two in the same row, the left one.
   */
  lemma {:induction false} TighterBindsFirst(a: Cst, b: Cst, c: Cst, first: BinaryOp, second: BinaryOp, i: nat, j: nat)
    requires InLevel(a, 5) && InLevel(b, 5) && InLevel(c, 5)
    requires i < |TABLE| && j < |TABLE| && first in TABLE[i] && second in TABLE[j]
    requires Ops(a) + Ops(b) + Ops(c) <= 254 && Nesting(a) <= 128 && Nesting(b) <= 128 && Nesting(c) <= 128
    ensures ParseTokens(Spell(a, Tok(TOp(first), Spell(b, Tok(TOp(second), Spell(c, Eof)))))) ==
      Parsed(if i < j then Binary(first, AstOf(a), Binary(second, AstOf(b), AstOf(c)))
             else Binary(second, Binary(first, AstOf(a), AstOf(b)), AstOf(c)),
             Eof, Ops(a) + Ops(b) + Ops(c) + 2)
  {
    hide ParseTokens, Spell, InLevel, Ops, Nesting, AstOf;
    TableIsPrecedence(first);
    TableIsPrecedence(second);
    if i < j {
      var inner := CBin(second, b, c);
      Between(second, b, c, Precedence(first) + 1, Eof);
      Between(first, a, inner, 0, Eof);
      DerivationParses(CBin(first, a, inner));
    } else {
      var inner := CBin(first, a, b);
      Between(first, a, b, Precedence(second), Tok(TOp(second), Spell(c, Eof)));
      Between(second, inner, c, 0, Eof);
      DerivationParses(CBin(second, inner, c));
    }
  }

  lemma {:induction false} Between(op: BinaryOp, l: Cst, r: Cst, k: nat, rest: Tokens)
    requires InLevel(l, 5) || InLevel(l, Precedence(op))
    requires InLevel(r, 5) || InLevel(r, Precedence(op) + 1)
    requires k <= Precedence(op)
    ensures InLevel(CBin(op, l, r), k)
    ensures Ops(CBin(op, l, r)) == Ops(l) + 1 + Ops(r) && AstOf(CBin(op, l, r)) == Binary(op, AstOf(l), AstOf(r))
    ensures Nesting(l) <= 128 && Nesting(r) <= 128 ==> Nesting(CBin(op, l, r)) <= 128
    ensures Spell(CBin(op, l, r), rest) == Spell(l, Tok(TOp(op), Spell(r, rest)))
  {
  }

  /** An index beyond the largest word is the largest word; any other is the number that is written. */
  lemma {:induction false} IndexSaturates(n: nat)
    ensures ParseTokens(Tok(TDollar, Tok(TLBracket, Tok(TNumber(n as real), Tok(TRBracket, Eof))))) ==
      Parsed(Ref(Reference(Implicit, [Index(if n <= 0xFFFF_FFFF_FFFF_FFFF then n else 0xFFFF_FFFF_FFFF_FFFF)])), Eof, 0)
  {
    var index := CIndex(n as real);
    var path := Step(index, End);
    var c := CRef(Implicit, path);
    hide ParseTokens;
    assert PathAst(path) == [SegAst(index)] + PathAst(End) == [Index(ClampIndex(n as real))];
    assert SpellPath(path, Eof) == SpellSeg(index, SpellPath(End, Eof)) == SpellSeg(index, Eof);
    assert Spell(c, Eof) == Tok(TDollar, SpellSeg(index, Eof));
    DerivationParses(c);
  }
}

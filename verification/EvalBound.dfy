/** The parser's two caps bound the evaluator's recursion, and the bound is reached. */
module EvalBound {
  import opened Ast
  import opened Eval
  import opened Grammar
  import opened GrammarTheorem
  import opened ParserSpec
  import opened Printer
  import opened Wrappers

  const MAX_FRAMES: nat := MAX_EXPR_DEPTH + MAX_EXPR_OPS + 1

  function BinaryNodes(e: Expression): nat
  {
    match e
    case Lit(_) | Ref(_) => 0
    case Not(x) => BinaryNodes(x)
    case Binary(_, l, r) => BinaryNodes(l) + 1 + BinaryNodes(r)
  }

  /** The most `!` nodes on one path from the root to a leaf. */
  function NotsOnPath(e: Expression): nat
  {
    match e
    case Lit(_) | Ref(_) => 0
    case Not(x) => 1 + NotsOnPath(x)
    case Binary(_, l, r) => if NotsOnPath(l) > NotsOnPath(r) then NotsOnPath(l) else NotsOnPath(r)
  }

  lemma {:induction false} DerivationMeasures(c: Cst)
    ensures BinaryNodes(AstOf(c)) == Ops(c) && NotsOnPath(AstOf(c)) <= Nesting(c)
    ensures Height(AstOf(c)) <= Ops(c) + Nesting(c) + 1
  {
    match c
    case CLit(_) =>
    case CRef(_, _) =>
    case CParen(e) => DerivationMeasures(e);
    case CNot(e) => DerivationMeasures(e);
    case CBin(_, l, r) => DerivationMeasures(l); DerivationMeasures(r);
  }

  /** Every parsed tree is small, and evaluating it never needs more than `MAX_FRAMES` frames. */
  lemma {:induction false} ParsedTreesAreBounded(ts: Tokens, ctx: EvalContext)
    requires ParseTokens(ts).Parsed?
    ensures var e := ParseTokens(ts).value;
      && BinaryNodes(e) <= 256 && NotsOnPath(e) <= 128 && Height(e) <= 385
      && EvalOnStack(e, ctx, 385) == Some(EvalExpression(e, ctx))
  {
    var c := AcceptedDerivation(ts);
    DerivationMeasures(c);
    HeightIsEnoughStack(AstOf(c), ctx, MAX_FRAMES);
  }

  function Nots(n: nat): Expression
  {
    if n == 0 then Lit(Null) else Not(Nots(n - 1))
  }

  /** `!…!null ?? null ?? …`, left deep. */
  function Tower(nots: nat, ops: nat): Expression
  {
    if ops == 0 then Nots(nots) else Binary(Coalesce, Tower(nots, ops - 1), Lit(Null))
  }

  lemma {:induction false} NotsMeasures(n: nat, k: nat, ctx: EvalContext, frames: nat)
    requires k <= UNARY
    ensures Printable(Nots(n)) && Ops(ToCst(Nots(n), k)) == 0 && Nesting(ToCst(Nots(n), k)) == n
    ensures frames <= n ==> EvalOnStack(Nots(n), ctx, frames) == None
  {
    if n > 0 {
      NotsMeasures(n - 1, UNARY, ctx, if frames > 0 then frames - 1 else 0);
    }
  }

  lemma {:induction false} TowerMeasures(nots: nat, ops: nat, ctx: EvalContext, frames: nat)
    ensures Printable(Tower(nots, ops)) && Ops(ToCst(Tower(nots, ops), 0)) == ops
    ensures Nesting(ToCst(Tower(nots, ops), 0)) == nots
    ensures frames <= nots + ops ==> EvalOnStack(Tower(nots, ops), ctx, frames) == None
  {
    if ops == 0 {
      NotsMeasures(nots, 0, ctx, frames);
    } else {
      TowerMeasures(nots, ops - 1, ctx, if frames > 0 then frames - 1 else 0);
    }
  }

  /** One frame fewer would overflow on some text the parser accepts. */
  lemma {:induction false} BoundIsReached(ctx: EvalContext)
    ensures exists s, e :: ParseText(s) == Some(e) && EvalOnStack(e, ctx, MAX_FRAMES - 1) == None
  {
    var e := Tower(MAX_EXPR_DEPTH, MAX_EXPR_OPS);
    TowerMeasures(MAX_EXPR_DEPTH, MAX_EXPR_OPS, ctx, MAX_FRAMES - 1);
    RoundTrip(e);
    assert ParseText(Print(e)) == Some(e);
  }
}

/** Flat chains of one operator: the tree the parser builds from them, and why no other bracketing matters. */
module Chains {
  import opened Ast
  import opened Eval
  import opened Grammar
  import opened GrammarTheorem
  import opened ParserSpec

  /** The operands one after the other, the operator between them and no parentheses. */
  function Flat(op: BinaryOp, cs: seq<Cst>, rest: Tokens): Tokens
    requires cs != []
  {
    Spell(cs[0], FlatTail(op, cs[1..], rest))
  }

  function FlatTail(op: BinaryOp, cs: seq<Cst>, rest: Tokens): Tokens
  {
    if cs == [] then rest else Tok(TOp(op), Spell(cs[0], FlatTail(op, cs[1..], rest)))
  }

  /** Their left-associative derivation. */
  function Chain(op: BinaryOp, cs: seq<Cst>): Cst
    requires cs != []
  {
    if |cs| == 1 then cs[0] else CBin(op, Chain(op, cs[..|cs| - 1]), cs[|cs| - 1])
  }

  function Meanings(cs: seq<Cst>): (es: seq<Expression>)
    ensures |es| == |cs| && forall i | 0 <= i < |cs| :: es[i] == AstOf(cs[i])
  {
    seq(|cs|, i requires 0 <= i < |cs| => AstOf(cs[i]))
  }

  lemma {:induction false} FlatTailSnoc(op: BinaryOp, cs: seq<Cst>, c: Cst, rest: Tokens)
    ensures FlatTail(op, cs + [c], rest) == FlatTail(op, cs, Tok(TOp(op), Spell(c, rest)))
  {
    hide Spell;
    if cs == [] {
      assert ([c])[1..] == [];
      assert cs + [c] == [c];
    } else {
      assert (cs + [c])[1..] == cs[1..] + [c];
      FlatTailSnoc(op, cs[1..], c, rest);
    }
  }

  lemma {:induction false} ChainSpells(op: BinaryOp, cs: seq<Cst>, rest: Tokens)
    requires cs != []
    ensures Spell(Chain(op, cs), rest) == Flat(op, cs, rest)
    decreases |cs|
  {
    if |cs| > 1 {
      var n := |cs| - 1;
      var front, last := cs[..n], cs[n];
      ChainSpells(op, front, Tok(TOp(op), Spell(last, rest)));
      FlatTailSnoc(op, front[1..], last, rest);
      assert front[1..] + [last] == cs[1..];
    }
  }

  lemma {:induction false} ChainMeans(op: BinaryOp, cs: seq<Cst>)
    requires cs != [] && forall i | 0 <= i < |cs| :: InLevel(cs[i], Precedence(op) + 1)
    ensures InLevel(Chain(op, cs), Precedence(op)) && AstOf(Chain(op, cs)) == LeftDeep(op, Meanings(cs))
    decreases |cs|
  {
    if |cs| > 1 {
      var n := |cs| - 1;
      ChainMeans(op, cs[..n]);
      assert Meanings(cs)[..n] == Meanings(cs[..n]);
    }
  }

  lemma {:induction false} LooserLevel(c: Cst, k: nat)
    requires InLevel(c, k)
    ensures InLevel(c, 0)
  {
  }

  /** A flat chain, within the limits, parses to the left-deep tree over its operands. */
  lemma {:induction false} ParserBuildsLeftDeep(op: BinaryOp, cs: seq<Cst>)
    requires cs != [] && forall i | 0 <= i < |cs| :: InLevel(cs[i], Precedence(op) + 1)
    requires WithinLimits(Chain(op, cs))
    ensures ParseTokens(Flat(op, cs, Eof)).Parsed? && ParseTokens(Flat(op, cs, Eof)).value == LeftDeep(op, Meanings(cs))
  {
    hide Spell, AstOf, InLevel, WithinLimits, ParseTokens;
    var c := Chain(op, cs);
    ChainSpells(op, cs, Eof);
    ChainMeans(op, cs);
    LooserLevel(c, Precedence(op));
    DerivationParses(c);
  }

  /** So every bracketing of the operands of a parsed chain of `&&`, `||` or `??` has the value the parsed tree has. */
  lemma {:induction false} BracketsDoNotMatter(op: BinaryOp, cs: seq<Cst>, e: Expression, ctx: EvalContext)
    requires IsChainOp(op) && cs != [] && forall i | 0 <= i < |cs| :: InLevel(cs[i], Precedence(op) + 1)
    requires WithinLimits(Chain(op, cs)) && Operands(op, e) == Meanings(cs)
    ensures ParseTokens(Flat(op, cs, Eof)).Parsed?
    ensures EvalExpression(ParseTokens(Flat(op, cs, Eof)).value, ctx) == EvalExpression(e, ctx)
  {
    hide Spell, AstOf, InLevel, WithinLimits, ParseTokens;
    ParserBuildsLeftDeep(op, cs);
    BracketingIrrelevant(op, e, ctx);
  }
}

/**
  The stratified grammar of the expression language, as derivation trees.

  A `Cst` is a derivation: it keeps the parentheses and the written index numerals that
  the abstract syntax drops. `InLevel(c, k)` says `c` is a derivation from the grammar's
  level `k` (0 is the loosest, `??`; 5 is `!`; 6 is a primary), with the binary levels
  left-recursive. `Spell(c, rest)` is the token list that starts with what `c` spells and
  goes on with `rest`; `AstOf(c)` is the tree `c` stands for.
 */
module Grammar {
  import opened Ast

  datatype CSeg = CField(name: string) | CIndex(n: real) | CWild | CFilter(field: string, value: string)

  datatype CPath = End | Step(seg: CSeg, next: CPath)

  datatype Cst =
    | CLit(l: Literal)
    | CRef(root: Root, path: CPath)
    | CParen(inner: Cst)
    | CNot(inner: Cst)
    | CBin(op: BinaryOp, left: Cst, right: Cst)

  predicate InLevel(c: Cst, k: nat)
  {
    match c
    case CLit(_) => k <= PRIMARY
    case CRef(_, p) => k <= PRIMARY && PathOk(p)
    case CParen(e) => k <= PRIMARY && InLevel(e, 0)
    case CNot(e) => k <= UNARY && InLevel(e, UNARY)
    case CBin(op, l, r) =>
      k <= Precedence(op) && InLevel(l, Precedence(op)) && InLevel(r, Precedence(op) + 1)
  }

  /** Every index is a non-negative, integer-valued numeral. */
  predicate PathOk(p: CPath)
  {
    p.End? || (IndexOk(p.seg) && PathOk(p.next))
  }

  predicate IndexOk(s: CSeg)
  {
    s.CIndex? ==> 0.0 <= s.n && s.n == s.n.Floor as real
  }

  function LiteralToken(l: Literal): Token
  {
    match l
    case Str(s) => TString(s)
    case Number(n) => TNumber(n)
    case Bool(b) => if b then TTrue else TFalse
    case Null => TNull
  }

  function RootName(root: Root): string
  {
    match root
    case Input => "input"
    case Config => "config"
    case Secrets => "secrets"
    case Trigger => "trigger"
    case Vars => "vars"
    case Item => "item"
    case Steps(_) => "steps"
    case Implicit => ""
  }

  function SpellRoot(root: Root, rest: Tokens): Tokens
  {
    match root
    case Implicit => rest
    case Steps(id) => Tok(TIdent("steps"), Tok(TDot, Tok(TIdent(id), rest)))
    case _ => Tok(TIdent(RootName(root)), rest)
  }

  function SpellSeg(s: CSeg, rest: Tokens): Tokens
  {
    match s
    case CField(name) => Tok(TDot, Tok(TIdent(name), rest))
    case CIndex(n) => Tok(TLBracket, Tok(TNumber(n), Tok(TRBracket, rest)))
    case CWild => Tok(TLBracket, Tok(TStar, Tok(TRBracket, rest)))
    case CFilter(f, v) =>
      Tok(TLBracket, Tok(TQuestion, Tok(TLParen, Tok(TAt, Tok(TDot, SpellTest(f, v, rest))))))
  }

  /** The tail of a filter, from the field name on. */
  function SpellTest(f: string, v: string, rest: Tokens): Tokens
  {
    Tok(TIdent(f), Tok(TOp(Eq), Tok(TString(v), Tok(TRParen, Tok(TRBracket, rest)))))
  }

  function SpellPath(p: CPath, rest: Tokens): Tokens
  {
    if p.End? then rest else SpellSeg(p.seg, SpellPath(p.next, rest))
  }

  function Spell(c: Cst, rest: Tokens): Tokens
    decreases c
  {
    match c
    case CLit(l) => Tok(LiteralToken(l), rest)
    case CRef(root, p) => Tok(TDollar, SpellRoot(root, SpellPath(p, rest)))
    case CParen(e) => Tok(TLParen, Spell(e, Tok(TRParen, rest)))
    case CNot(e) => Tok(TBang, Spell(e, rest))
    case CBin(op, l, r) => Spell(l, Tok(TOp(op), Spell(r, rest)))
  }

  function SegAst(s: CSeg): PathSegment
  {
    match s
    case CField(name) => Field(name)
    case CIndex(n) => Index(ClampIndex(n))
    case CWild => Wildcard
    case CFilter(f, v) => FilterEq(f, v)
  }

  function PathAst(p: CPath): seq<PathSegment>
  {
    if p.End? then [] else [SegAst(p.seg)] + PathAst(p.next)
  }

  function AstOf(c: Cst): Expression
  {
    match c
    case CLit(l) => Lit(l)
    case CRef(root, p) => Ref(Reference(root, PathAst(p)))
    case CParen(e) => AstOf(e)
    case CNot(e) => Not(AstOf(e))
    case CBin(op, l, r) => Binary(op, AstOf(l), AstOf(r))
  }

  /** Binary operators in the whole derivation. */
  function Ops(c: Cst): nat
  {
    match c
    case CLit(_) | CRef(_, _) => 0
    case CParen(e) => Ops(e)
    case CNot(e) => Ops(e)
    case CBin(_, l, r) => Ops(l) + 1 + Ops(r)
  }

  /** The most `(` and `!` that enclose any one point of the derivation. */
  function Nesting(c: Cst): nat
  {
    match c
    case CLit(_) | CRef(_, _) => 0
    case CParen(e) => 1 + Nesting(e)
    case CNot(e) => 1 + Nesting(e)
    case CBin(_, l, r) => if Nesting(l) > Nesting(r) then Nesting(l) else Nesting(r)
  }

  function Parens(c: Cst): nat
  {
    match c
    case CLit(_) | CRef(_, _) => 0
    case CParen(e) => 1 + Parens(e)
    case CNot(e) => Parens(e)
    case CBin(_, l, r) => Parens(l) + Parens(r)
  }

  /** The two limits on what is parsed. */
  predicate WithinLimits(c: Cst)
  {
    Ops(c) <= 256 && Nesting(c) <= 128
  }
}

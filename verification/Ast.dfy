/** The abstract syntax of the reference DSL and the tokens it is written in. */
module Ast {
  import opened Machine

  /** Where a path starts. `Implicit` is a bare `$`. */
  datatype Root = Input | Steps(id: string) | Config | Secrets | Trigger | Vars | Item | Implicit

  datatype PathSegment =
    | Field(name: string)
    | Index(n: nat)
    | Wildcard
    | FilterEq(field: string, value: string)

  datatype Reference = Reference(root: Root, path: seq<PathSegment>)

  /** Number literals carry the exact value of the numeral. */
  datatype Literal = Str(s: string) | Number(n: real) | Bool(b: bool) | Null

  datatype BinaryOp = Eq | NotEq | Lt | Le | Gt | Ge | And | Or | Coalesce

  datatype Expression =
    | Lit(l: Literal)
    | Ref(r: Reference)
    | Not(e: Expression)
    | Binary(op: BinaryOp, left: Expression, right: Expression)

  /** One token kind per lexeme class; the nine binary operators share a constructor. `TEof` ends a token vector. */
  datatype Token =
    | TDollar | TDot | TLBracket | TRBracket | TLParen | TRParen
    | TQuestion | TAt | TStar | TBang
    | TOp(op: BinaryOp)
    | TIdent(name: string)
    | TString(s: string)
    | TNumber(n: real)
    | TTrue | TFalse | TNull
    | TEof

  /** A token list as the parser reads it: its end marker is `Eof`, last and nowhere else. */
  datatype Tokens = Eof | Tok(head: Token, rest: Tokens)

  function Len(ts: Tokens): nat
  {
    if ts.Eof? then 0 else 1 + Len(ts.rest)
  }

  /** Loosest-binding operator first, as in the precedence table. */
  function Precedence(op: BinaryOp): (k: nat)
  {
    match op
    case Coalesce => 0
    case Or => 1
    case And => 2
    case Eq | NotEq => 3
    case Lt | Le | Gt | Ge => 4
  }

  const UNARY: nat := 5
  const PRIMARY: nat := 6

  const MAX_EXPR_DEPTH: nat := 128
  const MAX_EXPR_OPS: nat := 256

  /** The saturating cast of a numeral to an index: a larger one becomes the largest word. */
  function ClampIndex(n: real): (i: nat)
  {
    if n < 0.0 then 0 else if n.Floor > USIZE_MAX then USIZE_MAX else n.Floor
  }
}

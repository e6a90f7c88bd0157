/** The parser with its three mutable fields, proved to compute what `ParserSpec` says. */
module Parser {
  import opened Ast
  import opened ParserSpec
  import opened Wrappers

  /** An error and the index of the token it points at. */
  datatype Fault = Fault(kind: ParseError, at: nat)

  /** The lexer's output: a final end marker and no other. */
  predicate ValidTokens(ts: seq<Token>)
  {
    && |ts| > 0
    && ts[|ts| - 1] == TEof
    && forall i | 0 <= i < |ts| - 1 :: ts[i] != TEof
  }

  /** The tokens still to read at `pos`. */
  function View(ts: seq<Token>, pos: nat): (v: Tokens)
    requires ValidTokens(ts) && pos < |ts|
    ensures Len(v) == |ts| - 1 - pos
    decreases |ts| - pos
  {
    if pos == |ts| - 1 then Eof else Tok(ts[pos], View(ts, pos + 1))
  }

  class Parser {
    const tokens: seq<Token>
    var pos: nat
    var depth: nat
    var ops: nat

    ghost predicate Valid()
      reads this
    {
      ValidTokens(tokens) && pos < |tokens|
    }

    /** The tokens still to read. */
    ghost function Todo(): (v: Tokens)
      requires Valid()
      reads this
    {
      View(tokens, pos)
    }

    /** The method's result and final position are what the specification function says. */
    ghost predicate Did<T>(spec: Outcome<T>, r: Result<T, Fault>)
      requires Valid()
      reads this
    {
      match spec
      case Parsed(v, rest, _) => r == Ok(v) && Todo() == rest
      case Failed(e, at) =>
        r.Err? && r.error.kind == e && r.error.at < |tokens| && View(tokens, r.error.at) == at
    }

    constructor (tokens: seq<Token>)
      requires ValidTokens(tokens)
      ensures Valid() && this.tokens == tokens && pos == depth == ops == 0
    {
      this.tokens := tokens;
      pos, depth, ops := 0, 0, 0;
    }

    /** Recursion guard: the depth is raised even when the limit is hit. */
    method Descend(at: nat) returns (r: Result<(), Fault>)
      modifies this`depth
      ensures depth == old(depth) + 1
      ensures r == if old(depth) < MAX_EXPR_DEPTH then Ok(()) else Err(Fault(TooDeep, at))
    {
      depth := depth + 1;
      if depth > MAX_EXPR_DEPTH {
        return Err(Fault(TooDeep, at));
      }
      return Ok(());
    }

    method Ascend()
      requires depth > 0
      modifies this`depth
      ensures depth == old(depth) - 1
    {
      depth := depth - 1;
    }

    method CountOp(at: nat) returns (r: Result<(), Fault>)
      modifies this`ops
      ensures ops == old(ops) + 1
      ensures r == if old(ops) < MAX_EXPR_OPS then Ok(()) else Err(Fault(TooManyOps, at))
    {
      ops := ops + 1;
      if ops > MAX_EXPR_OPS {
        return Err(Fault(TooManyOps, at));
      }
      return Ok(());
    }

    /** Consumes one token; the end marker is never passed. */
    method Bump() returns (t: Token)
      requires Valid()
      modifies this`pos
      ensures Valid()
      ensures t == tokens[old(pos)] && pos == if t == TEof then old(pos) else old(pos) + 1
      ensures t == TEof <==> old(Todo()) == Eof
      ensures t != TEof ==> old(Todo()) == Tok(t, Todo())
    {
      t := tokens[pos];
      if t != TEof {
        pos := pos + 1;
      }
    }

    method Expect(want: Token) returns (r: Result<(), Fault>)
      requires Valid() && want != TEof
      modifies this`pos
      ensures Valid()
      ensures if Next(old(Todo()), want) then r == Ok(()) && old(Todo()) == Tok(want, Todo()) else
        r == Err(Fault(Syntax, old(pos))) && pos == old(pos)
    {
      if tokens[pos] == want {
        var _ := Bump();
        return Ok(());
      }
      return Err(Fault(Syntax, pos));
    }

    method ExpectEof() returns (r: Result<(), Fault>)
      requires Valid()
      ensures r == if Todo() == Eof then Ok(()) else Err(Fault(Syntax, pos))
    {
      if tokens[pos] == TEof {
        return Ok(());
      }
      return Err(Fault(Syntax, pos));
    }

    method ParseReference() returns (r: Result<Reference, Fault>)
      requires Valid()
      modifies this`pos
      ensures Valid() && Did(RefAt(old(Todo())), r)
    {
      var _ :- Expect(TDollar);
      var root :- ParseRoot();
      var path :- ParsePathSegments();
      return Ok(Reference(root, path));
    }

    /** The part of the reference production that reads the root name. */
    method ParseRoot() returns (r: Result<Root, Fault>)
      requires Valid()
      modifies this`pos
      ensures Valid() && Did(RootAt(old(Todo())), r)
    {
      if !tokens[pos].TIdent? {
        return Ok(Implicit);
      }
      var name := tokens[pos].name;
      match name
      case "input" => var _ := Bump(); return Ok(Input);
      case "config" => var _ := Bump(); return Ok(Config);
      case "secrets" => var _ := Bump(); return Ok(Secrets);
      case "trigger" => var _ := Bump(); return Ok(Trigger);
      case "vars" => var _ := Bump(); return Ok(Vars);
      case "item" => var _ := Bump(); return Ok(Item);
      case "steps" =>
        var _ := Bump();
        var _ :- Expect(TDot);
        var at := pos;
        var id := Bump();
        if !id.TIdent? {
          return Err(Fault(Syntax, at));
        }
        return Ok(Steps(id.name));
      case _ => return Err(Fault(Syntax, pos));
    }

    method ParsePathSegments() returns (r: Result<seq<PathSegment>, Fault>)
      requires Valid()
      modifies this`pos
      ensures Valid() && Did(Path(old(Todo())), r)
    {
      var segs: seq<PathSegment> := [];
      PrependEach([], Wildcard, Path(Todo()));
      while true
        invariant Valid()
        invariant Path(old(Todo())) == Prepend(segs, Path(Todo()))
        decreases |tokens| - pos
      {
        ghost var ts := Todo();
        if tokens[pos] == TDot {
          var _ := Bump();
          var at := pos;
          var t := Bump();
          if !t.TIdent? {
            return Err(Fault(Syntax, at));
          }
          PrependEach(segs, Field(t.name), Path(Todo()));
          segs := segs + [Field(t.name)];
        } else if tokens[pos] == TLBracket {
          var _ := Bump();
          var seg :- ParseBracketSegment();
          PrependEach(segs, seg, Path(Todo()));
          segs := segs + [seg];
        } else {
          assert Path(ts) == Parsed([], ts, 0) && segs + [] == segs;
          return Ok(segs);
        }
      }
    }

    /** `[` is already consumed. */
    method ParseBracketSegment() returns (r: Result<PathSegment, Fault>)
      requires Valid()
      modifies this`pos
      ensures Valid() && Did(Bracket(old(Todo())), r)
      ensures r.Ok? ==> pos > old(pos)
    {
      var at := pos;
      var t := Bump();
      var seg: PathSegment;
      match t {
        case TStar => seg := Wildcard;
        case TNumber(n) =>
          if n < 0.0 || n != n.Floor as real {
            return Err(Fault(Syntax, at));
          }
          seg := Index(ClampIndex(n));
        case TQuestion => seg :- ParseFilter();
        case _ => return Err(Fault(Syntax, at));
      }
      var _ :- Expect(TRBracket);
      return Ok(seg);
    }

    /** The filter arm of the bracket production, up to its `)`. */
    method ParseFilter() returns (r: Result<PathSegment, Fault>)
      requires Valid()
      modifies this`pos
      ensures Valid()
      ensures match r
        case Err(_) => Did(Filter(old(Todo())), r)
        case Ok(s) => Filter(old(Todo())) == CloseBracket(Todo(), s) && pos > old(pos)
    {
      var _ :- Expect(TLParen);
      var _ :- Expect(TAt);
      var _ :- Expect(TDot);
      var at := pos;
      var field := Bump();
      if !field.TIdent? {
        return Err(Fault(Syntax, at));
      }
      var _ :- Expect(TOp(Eq));
      at := pos;
      var lit := Bump();
      if !lit.TString? {
        return Err(Fault(Syntax, at));
      }
      var _ :- Expect(TRParen);
      return Ok(FilterEq(field.name, lit.s));
    }

    /** The depth is restored on success and never drops below its value on entry. */
    ghost predicate DidExpression(spec: Outcome<Expression>, r: Result<Expression, Fault>, pos0: nat, depth0: nat)
      requires Valid()
      reads this
    {
      && Did(spec, r)
      && depth >= depth0
      && (r.Ok? ==> spec.Parsed? && depth == depth0 && ops == spec.ops && pos > pos0)
    }

    /** The five left-associative levels `??`, `||`, `&&`, equality and comparison. */
    method ParseBinary(k: nat) returns (r: Result<Expression, Fault>)
      requires Valid() && k < UNARY
      modifies this
      ensures Valid() && DidExpression(LevelAt(old(Todo()), old(depth), old(ops), k), r, old(pos), old(depth))
      decreases |tokens| - pos, 2, 2 * (UNARY - k)
    {
      hide LevelAt, LoopAt;
      LevelUnfolds(Todo(), depth, ops, k);
      var left :- ParseLevel(k + 1);
      while tokens[pos].TOp? && Precedence(tokens[pos].op) == k
        invariant Valid() && depth == old(depth) && pos > old(pos)
        invariant LevelAt(old(Todo()), old(depth), old(ops), k) == LoopAt(Todo(), depth, ops, k, left)
        decreases |tokens| - pos
      {
        var op := tokens[pos].op;
        LoopUnfolds(Todo(), depth, ops, k, left);
        var _ :- CountOp(pos);
        var _ := Bump();
        var right :- ParseLevel(k + 1);
        left := Binary(op, left, right);
      }
      LoopUnfolds(Todo(), depth, ops, k, left);
      return Ok(left);
    }

    method ParseLevel(k: nat) returns (r: Result<Expression, Fault>)
      requires Valid() && k <= UNARY
      modifies this
      ensures Valid() && DidExpression(LevelAt(old(Todo()), old(depth), old(ops), k), r, old(pos), old(depth))
      decreases |tokens| - pos, 2, 2 * (UNARY - k) + 1
    {
      if k < UNARY {
        r := ParseBinary(k);
      } else {
        r := ParseUnary();
      }
    }

    method ParseUnary() returns (r: Result<Expression, Fault>)
      requires Valid()
      modifies this
      ensures Valid() && DidExpression(UnaryAt(old(Todo()), old(depth), old(ops)), r, old(pos), old(depth))
      decreases |tokens| - pos, 1, 0
    {
      hide LevelAt, LoopAt, PrimaryAt;
      if tokens[pos] == TBang {
        var _ :- Descend(pos);
        var _ := Bump();
        var inner := ParseUnary();
        Ascend();
        var e :- inner;
        return Ok(Not(e));
      }
      r := ParsePrimary();
    }

    method ParsePrimary() returns (r: Result<Expression, Fault>)
      requires Valid()
      modifies this
      ensures Valid() && DidExpression(PrimaryAt(old(Todo()), old(depth), old(ops)), r, old(pos), old(depth))
      decreases |tokens| - pos, 0, 1
    {
      hide LevelAt, LoopAt, UnaryAt, RefAt, LiteralAt;
      match tokens[pos]
      case TLParen => r := ParseGroup();
      case TDollar =>
        var ref :- ParseReference();
        return Ok(Ref(ref));
      case _ => r := ParseLiteral();
    }

    /** The parenthesis arm of the primary production. */
    method ParseGroup() returns (r: Result<Expression, Fault>)
      requires Valid() && tokens[pos] == TLParen
      modifies this
      ensures Valid() && DidExpression(PrimaryAt(old(Todo()), old(depth), old(ops)), r, old(pos), old(depth))
      decreases |tokens| - pos, 0, 0
    {
      hide LevelAt, LoopAt, UnaryAt, RefAt, LiteralAt;
      var _ :- Descend(pos);
      var _ := Bump();
      var inner := ParseLevel(0);
      Ascend();
      var e :- inner;
      var _ :- Expect(TRParen);
      return Ok(e);
    }

    /** The literal arms of the primary production. */
    method ParseLiteral() returns (r: Result<Expression, Fault>)
      requires Valid()
      modifies this`pos
      ensures Valid() && Did(LiteralAt(old(Todo()), ops), r)
      ensures r.Ok? ==> pos > old(pos)
    {
      match tokens[pos]
      case TString(s) => var _ := Bump(); return Ok(Lit(Str(s)));
      case TNumber(n) => var _ := Bump(); return Ok(Lit(Number(n)));
      case TTrue => var _ := Bump(); return Ok(Lit(Bool(true)));
      case TFalse => var _ := Bump(); return Ok(Lit(Bool(false)));
      case TNull => var _ := Bump(); return Ok(Lit(Null));
      case _ => return Err(Fault(Syntax, pos));
    }
  }

  /** The expression entry point, after lexing. */
  method ParseExpressionTokens(tokens: seq<Token>) returns (r: Result<Expression, Fault>)
    requires ValidTokens(tokens)
    ensures match ParseTokens(View(tokens, 0))
      case Parsed(e, _, _) => r == Ok(e)
      case Failed(k, at) => r.Err? && r.error.kind == k && r.error.at < |tokens| && View(tokens, r.error.at) == at
  {
    var p := new Parser(tokens);
    var e :- p.ParseLevel(0);
    var _ :- p.ExpectEof();
    return Ok(e);
  }

  lemma {:induction false} LevelUnfolds(ts: Tokens, d: int, o: int, k: nat)
    requires k < UNARY
    ensures LevelAt(ts, d, o, k) ==
      match LevelAt(ts, d, o, k + 1)
      case Failed(e, at) => Failed(e, at)
      case Parsed(left, ts1, o1) => LoopAt(ts1, d, o1, k, left)
  {
    hide LoopAt;
  }

  lemma {:induction false} LoopUnfolds(ts: Tokens, d: int, o: int, k: nat, left: Expression)
    requires k < UNARY
    ensures LoopAt(ts, d, o, k, left) ==
      if !IsOpAt(ts, k) then Parsed(left, ts, o)
      else if o + 1 > MAX_EXPR_OPS then Failed(TooManyOps, ts)
      else
        match LevelAt(ts.rest, d, o + 1, k + 1)
        case Failed(e, at) => Failed(e, at)
        case Parsed(right, ts1, o1) => LoopAt(ts1, d, o1, k, Binary(ts.head.op, left, right))
  {
    hide LevelAt;
  }
}

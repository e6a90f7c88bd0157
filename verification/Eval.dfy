/** The tree-walking evaluator. */
module Eval {
  import opened Ast
  import opened Json
  import opened Wrappers

  datatype EvalContext = EvalContext(
    input: Option<Json>, steps: Option<Json>, config: Option<Json>, secrets: Option<Json>,
    trigger: Option<Json>, vars: Option<Json>, item: Option<Json>, implicitSource: Option<Json>)

  // ------------------------------------------------------------ references

  function ResolveRoot(root: Root, ctx: EvalContext): Option<Json>
  {
    match root
    case Implicit => ctx.implicitSource
    case Input => ctx.input
    case Config => ctx.config
    case Secrets => ctx.secrets
    case Trigger => ctx.trigger
    case Vars => ctx.vars
    case Item => ctx.item
    case Steps(id) => if ctx.steps.Some? then Get(ctx.steps.value, id) else None
  }

  predicate FieldEqualsString(v: Json, field: string, expected: string)
  {
    Get(v, field) == Some(JString(expected))
  }

  /** The elements an array filter keeps. */
  function Keep(items: seq<Json>, field: string, value: string): seq<Json>
  {
    if items == [] then []
    else (if FieldEqualsString(items[0], field, value) then [items[0]] else []) + Keep(items[1..], field, value)
  }

  /** What one segment selects from one value. */
  function Pick(seg: PathSegment, v: Json): seq<Json>
  {
    match seg
    case Field(name) => if Get(v, name).Some? then [Get(v, name).value] else []
    case Index(i) => if v.JArray? && i < |v.items| then [v.items[i]] else []
    case Wildcard => if v.JArray? then v.items else []
    case FilterEq(f, s) => if v.JArray? then Keep(v.items, f, s) else []
  }

  function FlatMap(seg: PathSegment, sel: seq<Json>): seq<Json>
  {
    if sel == [] then [] else Pick(seg, sel[0]) + FlatMap(seg, sel[1..])
  }

  /** The composition of the segments' flat maps. */
  function Select(path: seq<PathSegment>, sel: seq<Json>): seq<Json>
  {
    if path == [] then sel else Select(path[1..], FlatMap(path[0], sel))
  }

  /** Nothing is null, one value is itself, more are an array. */
  function Unwrap(sel: seq<Json>): Json
  {
    if sel == [] then JNull else if |sel| == 1 then sel[0] else JArray(sel)
  }

  function RefValue(r: Reference, ctx: EvalContext): Json
  {
    match ResolveRoot(r.root, ctx)
    case None => JNull
    case Some(root) => Unwrap(Select(r.path, [root]))
  }

  lemma {:induction false} FlatMapSnoc(seg: PathSegment, sel: seq<Json>, v: Json)
    ensures FlatMap(seg, sel + [v]) == FlatMap(seg, sel) + Pick(seg, v)
  {
    FlatMapConcat(seg, sel, [v]);
    assert [v][1..] == [];
  }

  lemma {:induction false} FlatMapConcat(seg: PathSegment, a: seq<Json>, b: seq<Json>)
    ensures FlatMap(seg, a + b) == FlatMap(seg, a) + FlatMap(seg, b)
  {
    if a == [] {
      assert a + b == b;
    } else {
      assert (a + b)[1..] == a[1..] + b;
      FlatMapConcat(seg, a[1..], b);
    }
  }

  lemma {:induction false} KeepSnoc(items: seq<Json>, x: Json, f: string, s: string)
    ensures Keep(items + [x], f, s) == Keep(items, f, s) + if FieldEqualsString(x, f, s) then [x] else []
  {
    hide FieldEqualsString;
    var more := items + [x];
    if items == [] {
      assert more[0] == x && more[1..] == [];
    } else {
      assert more[0] == items[0] && more[1..] == items[1..] + [x];
      KeepSnoc(items[1..], x, f, s);
      var first := if FieldEqualsString(items[0], f, s) then [items[0]] else [];
      var last := if FieldEqualsString(x, f, s) then [x] else [];
      assert Keep(more, f, s) == first + (Keep(items[1..], f, s) + last);
      assert first + (Keep(items[1..], f, s) + last) == first + Keep(items[1..], f, s) + last;
    }
  }

  method ApplySegment(seg: PathSegment, sel: seq<Json>) returns (out: seq<Json>)
    ensures out == FlatMap(seg, sel)
  {
    out := [];
    for i := 0 to |sel|
      invariant out == FlatMap(seg, sel[..i])
    {
      assert sel[..i + 1] == sel[..i] + [sel[i]];
      FlatMapSnoc(seg, sel[..i], sel[i]);
      match seg {
        case Field(name) =>
          var child := Get(sel[i], name);
          if child.Some? {
            out := out + [child.value];
          }
        case Index(n) =>
          if sel[i].JArray? && n < |sel[i].items| {
            out := out + [sel[i].items[n]];
          }
        case Wildcard =>
          if sel[i].JArray? {
            out := out + sel[i].items;
          }
        case FilterEq(f, s) =>
          if sel[i].JArray? {
            ghost var before := out;
            for j := 0 to |sel[i].items|
              invariant out == before + Keep(sel[i].items[..j], f, s)
            {
              var elem := sel[i].items[j];
              assert sel[i].items[..j + 1] == sel[i].items[..j] + [elem];
              KeepSnoc(sel[i].items[..j], elem, f, s);
              if FieldEqualsString(elem, f, s) {
                out := out + [elem];
              }
            }
            assert sel[i].items[..|sel[i].items|] == sel[i].items;
          }
      }
    }
    assert sel[..|sel|] == sel;
  }

  /** The selection loop stops at the first empty selection; the value is that of the composition. */
  method EvalReference(r: Reference, ctx: EvalContext) returns (v: Json)
    ensures v == RefValue(r, ctx)
  {
    var root := ResolveRoot(r.root, ctx);
    if root.None? {
      return JNull;
    }
    var selection := [root.value];
    var i := 0;
    while i < |r.path|
      invariant i <= |r.path|
      invariant Select(r.path, [root.value]) == Select(r.path[i..], selection)
    {
      selection := ApplySegment(r.path[i], selection);
      assert r.path[i..][1..] == r.path[i + 1..];
      i := i + 1;
      if selection == [] {
        SelectNothing(r.path[i..]);
        break;
      }
    }
    return Unwrap(selection);
  }

  lemma {:induction false} SelectNothing(path: seq<PathSegment>)
    ensures Select(path, []) == []
  {
    if path != [] {
      SelectNothing(path[1..]);
    }
  }

  /** Selecting along a concatenated path is selecting along one part, then the other. */
  lemma {:induction false} SelectComposes(p: seq<PathSegment>, q: seq<PathSegment>, sel: seq<Json>)
    ensures Select(p + q, sel) == Select(q, Select(p, sel))
  {
    if p == [] {
      assert p + q == q;
    } else {
      assert (p + q)[1..] == p[1..] + q;
      SelectComposes(p[1..], q, FlatMap(p[0], sel));
    }
  }

  /** Each selected value is followed on its own: selection distributes over the start set. */
  lemma {:induction false} SelectDistributes(path: seq<PathSegment>, a: seq<Json>, b: seq<Json>)
    ensures Select(path, a + b) == Select(path, a) + Select(path, b)
  {
    if path != [] {
      FlatMapConcat(path[0], a, b);
      SelectDistributes(path[1..], FlatMap(path[0], a), FlatMap(path[0], b));
    }
  }

  /** Without a wildcard or a filter a path selects at most one value. */
  lemma {:induction false} PlainPathSelectsAtMostOne(path: seq<PathSegment>, sel: seq<Json>)
    requires |sel| <= 1
    requires forall i | 0 <= i < |path| :: path[i].Field? || path[i].Index?
    ensures |Select(path, sel)| <= 1
  {
    if path != [] {
      assert path[0].Field? || path[0].Index?;
      if sel != [] {
        assert sel[1..] == [];
        assert FlatMap(path[0], sel) == Pick(path[0], sel[0]);
      }
      PlainPathSelectsAtMostOne(path[1..], FlatMap(path[0], sel));
    }
  }

  // ------------------------------------------------------------ expressions

  const I64_BOUND: real := 0x8000_0000_0000_0000 as real

  /** An integer-valued literal in the 64-bit range becomes an integer. */
  function LiteralValue(l: Literal): Json
  {
    match l
    case Str(s) => JString(s)
    case Bool(b) => JBool(b)
    case Null => JNull
    case Number(n) =>
      if n == n.Floor as real && -I64_BOUND <= n <= I64_BOUND
      then JNumber(Int(if n == I64_BOUND then n.Floor - 1 else n.Floor))
      else JNumber(Float(n))
  }

  predicate IsTruthy(v: Json)
  {
    match v
    case JNull => false
    case JBool(b) => b
    case JNumber(n) => n.AsReal() != 0.0
    case JString(s) => s != ""
    case JArray(a) => a != []
    case JObject(o) => o != []
  }

  /** Two numbers compare by value; inside a composite, and of any other kind, values compare as JSON values do. */
  predicate ValuesEqual(a: Json, b: Json)
  {
    if a.JNumber? && b.JNumber? then a.n.AsReal() == b.n.AsReal() else SameJson(a, b)
  }

  /** Numbers only. */
  predicate ValuesOrdered(op: BinaryOp, a: Json, b: Json)
  {
    a.JNumber? && b.JNumber? &&
    match op
    case Lt => a.n.AsReal() < b.n.AsReal()
    case Le => a.n.AsReal() <= b.n.AsReal()
    case Gt => a.n.AsReal() > b.n.AsReal()
    case Ge => a.n.AsReal() >= b.n.AsReal()
    case _ => false
  }

  /** The value of a binary node from the values of its operands. */
  function Combine(op: BinaryOp, left: Json, right: Json): Json
  {
    match op
    case Eq => JBool(ValuesEqual(left, right))
    case NotEq => JBool(!ValuesEqual(left, right))
    case Lt | Le | Gt | Ge => JBool(ValuesOrdered(op, left, right))
    case And => JBool(IsTruthy(left) && IsTruthy(right))
    case Or => JBool(IsTruthy(left) || IsTruthy(right))
    case Coalesce => if left == JNull then right else left
  }

  function EvalExpression(e: Expression, ctx: EvalContext): Json
  {
    match e
    case Lit(l) => LiteralValue(l)
    case Ref(r) => RefValue(r, ctx)
    case Not(x) => JBool(!IsTruthy(EvalExpression(x, ctx)))
    case Binary(op, l, r) => Combine(op, EvalExpression(l, ctx), EvalExpression(r, ctx))
  }

  // ------------------------------------------------------------ recursion

  /** The left value already decides the node: the right operand is not evaluated. */
  function Decided(op: BinaryOp, left: Json): Option<Json>
  {
    match op
    case And => if IsTruthy(left) then None else Some(JBool(false))
    case Or => if IsTruthy(left) then Some(JBool(true)) else None
    case Coalesce => if left == JNull then None else Some(left)
    case _ => None
  }

  /** The evaluator as it recurses, short circuits included, on a stack of `frames`; `None` is overflow. */
  function EvalOnStack(e: Expression, ctx: EvalContext, frames: nat): Option<Json>
  {
    if frames == 0 then None
    else
      match e
      case Lit(l) => Some(LiteralValue(l))
      case Ref(r) => Some(RefValue(r, ctx))
      case Not(x) =>
        (match EvalOnStack(x, ctx, frames - 1)
         case None => None
         case Some(v) => Some(JBool(!IsTruthy(v))))
      case Binary(op, l, r) =>
        match EvalOnStack(l, ctx, frames - 1)
        case None => None
        case Some(left) =>
          if Decided(op, left).Some? then Decided(op, left)
          else
            match EvalOnStack(r, ctx, frames - 1)
            case None => None
            case Some(right) => Some(Combine(op, left, right))
  }

  function Height(e: Expression): nat
  {
    match e
    case Lit(_) | Ref(_) => 1
    case Not(x) => 1 + Height(x)
    case Binary(_, l, r) => 1 + if Height(l) > Height(r) then Height(l) else Height(r)
  }

  /** A decided node has the value it would have with any right operand. */
  lemma {:induction false} DecidedIsFinal(op: BinaryOp, left: Json, right: Json)
    ensures Decided(op, left).Some? ==> Decided(op, left).value == Combine(op, left, right)
  {
  }

  lemma {:induction false} HeightIsEnoughStack(e: Expression, ctx: EvalContext, frames: nat)
    requires frames >= Height(e)
    ensures EvalOnStack(e, ctx, frames) == Some(EvalExpression(e, ctx))
  {
    hide Combine, Decided, IsTruthy, LiteralValue, RefValue;
    match e
    case Lit(_) =>
    case Ref(_) =>
    case Not(x) => HeightIsEnoughStack(x, ctx, frames - 1);
    case Binary(op, l, r) =>
      HeightIsEnoughStack(l, ctx, frames - 1);
      HeightIsEnoughStack(r, ctx, frames - 1);
      DecidedIsFinal(op, EvalExpression(l, ctx), EvalExpression(r, ctx));
  }

  // ------------------------------------------------------------ re-bracketing

  predicate IsChainOp(op: BinaryOp)
  {
    op == And || op == Or || op == Coalesce
  }

  /** The operands of a nest of `op`, in reading order, whatever the brackets. */
  function Operands(op: BinaryOp, e: Expression): (xs: seq<Expression>)
    ensures |xs| > 0
  {
    if e.Binary? && e.op == op then Operands(op, e.left) + Operands(op, e.right) else [e]
  }

  /** The tree the parser's loop builds from a flat chain. */
  function LeftDeep(op: BinaryOp, xs: seq<Expression>): Expression
    requires |xs| > 0
  {
    if |xs| == 1 then xs[0] else Binary(op, LeftDeep(op, xs[..|xs| - 1]), xs[|xs| - 1])
  }

  lemma {:induction false} CombineAssociative(op: BinaryOp, a: Json, b: Json, c: Json)
    requires IsChainOp(op)
    ensures Combine(op, Combine(op, a, b), c) == Combine(op, a, Combine(op, b, c))
  {
  }

  lemma {:induction false} LeftDeepConcat(op: BinaryOp, xs: seq<Expression>, ys: seq<Expression>, ctx: EvalContext)
    requires IsChainOp(op) && |xs| > 0 && |ys| > 0
    ensures EvalExpression(LeftDeep(op, xs + ys), ctx)
      == Combine(op, EvalExpression(LeftDeep(op, xs), ctx), EvalExpression(LeftDeep(op, ys), ctx))
    decreases |ys|
  {
    var n := |ys| - 1;
    assert (xs + ys)[..|xs + ys| - 1] == xs + ys[..n];
    if n == 0 {
      assert xs + ys[..n] == xs;
    } else {
      LeftDeepConcat(op, xs, ys[..n], ctx);
      CombineAssociative(op, EvalExpression(LeftDeep(op, xs), ctx), EvalExpression(LeftDeep(op, ys[..n]), ctx),
                         EvalExpression(ys[n], ctx));
    }
  }

  /** A nest of one of `&&`, `||`, `??` has the value of the left-deep tree over its operands. */
  lemma {:induction false} BracketingIrrelevant(op: BinaryOp, e: Expression, ctx: EvalContext)
    requires IsChainOp(op)
    ensures EvalExpression(e, ctx) == EvalExpression(LeftDeep(op, Operands(op, e)), ctx)
  {
    if e.Binary? && e.op == op {
      BracketingIrrelevant(op, e.left, ctx);
      BracketingIrrelevant(op, e.right, ctx);
      LeftDeepConcat(op, Operands(op, e.left), Operands(op, e.right), ctx);
    }
  }

  /** So any two bracketings of the same operands agree. */
  lemma {:induction false} SameOperandsSameValue(op: BinaryOp, a: Expression, b: Expression, ctx: EvalContext)
    requires IsChainOp(op) && Operands(op, a) == Operands(op, b)
    ensures EvalExpression(a, ctx) == EvalExpression(b, ctx)
  {
    BracketingIrrelevant(op, a, ctx);
    BracketingIrrelevant(op, b, ctx);
  }
}

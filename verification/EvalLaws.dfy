/** What the value of an expression is, said without the functions that compute it. */
module EvalLaws {
  import opened Ast
  import opened Eval
  import opened Json
  import opened Wrappers

  // ------------------------------------------------------------ numbers

  /** The number a JSON value is, whether it is kept as an integer or as a float. */
  predicate Denotes(v: Json, x: real)
  {
    v == JNumber(Float(x)) || (v.JNumber? && v.n.Int? && v.n.i as real == x)
  }

  lemma {:induction false} NumberOf(v: Json) returns (x: real)
    requires v.JNumber?
    ensures Denotes(v, x) && x == v.n.AsReal()
  {
    x := v.n.AsReal();
  }

  /** Two numbers are equal when they denote the same number, and ordered as those are. */
  lemma {:induction false} NumbersCompareByValue(l: Expression, r: Expression, ctx: EvalContext, x: real, y: real)
    requires Denotes(EvalExpression(l, ctx), x) && Denotes(EvalExpression(r, ctx), y)
    ensures EvalExpression(Binary(Eq, l, r), ctx) == JBool(x == y)
    ensures EvalExpression(Binary(NotEq, l, r), ctx) == JBool(x != y)
    ensures EvalExpression(Binary(Lt, l, r), ctx) == JBool(x < y)
    ensures EvalExpression(Binary(Le, l, r), ctx) == JBool(x <= y)
    ensures EvalExpression(Binary(Gt, l, r), ctx) == JBool(x > y)
    ensures EvalExpression(Binary(Ge, l, r), ctx) == JBool(x >= y)
  {
  }

  /** Nothing else is ordered: no comparison of it holds, in either direction. */
  lemma {:induction false} OnlyNumbersAreOrdered(op: BinaryOp, l: Expression, r: Expression, ctx: EvalContext)
    requires op in {Lt, Le, Gt, Ge}
    ensures EvalExpression(Binary(op, l, r), ctx).JBool?
    ensures EvalExpression(Binary(op, l, r), ctx) == JBool(true) ==>
      exists x, y :: Denotes(EvalExpression(l, ctx), x) && Denotes(EvalExpression(r, ctx), y)
  {
    var a, b := EvalExpression(l, ctx), EvalExpression(r, ctx);
    if a.JNumber? && b.JNumber? {
      var x := NumberOf(a);
      var y := NumberOf(b);
    }
  }

  // ------------------------------------------------------------ operators through one another

  lemma {:induction false} NotEqualIsNotOfEqual(l: Expression, r: Expression, ctx: EvalContext)
    ensures EvalExpression(Binary(NotEq, l, r), ctx) == EvalExpression(Not(Binary(Eq, l, r)), ctx)
  {
  }

  lemma {:induction false} OrderingsMirror(l: Expression, r: Expression, ctx: EvalContext)
    ensures EvalExpression(Binary(Gt, l, r), ctx) == EvalExpression(Binary(Lt, r, l), ctx)
    ensures EvalExpression(Binary(Ge, l, r), ctx) == EvalExpression(Binary(Le, r, l), ctx)
  {
  }

  lemma {:induction false} AtMostIsNotOfGreater(l: Expression, r: Expression, ctx: EvalContext)
    requires EvalExpression(l, ctx).JNumber? && EvalExpression(r, ctx).JNumber?
    ensures EvalExpression(Binary(Le, l, r), ctx) == EvalExpression(Not(Binary(Gt, l, r)), ctx)
  {
  }

  // ------------------------------------------------------------ truth

  /** The six values that count as false. */
  predicate Falsy(v: Json)
  {
    v in [JNull, JBool(false), JString(""), JArray([]), JObject([])] || Denotes(v, 0.0)
  }

  /** `!!x` tells the six false values from all others; `!x` and both connectives follow it. */
  lemma {:induction false} ConnectivesFollowTruth(l: Expression, r: Expression, ctx: EvalContext)
    ensures EvalExpression(Not(Not(l)), ctx) == JBool(!Falsy(EvalExpression(l, ctx)))
    ensures EvalExpression(Not(l), ctx) == JBool(Falsy(EvalExpression(l, ctx)))
    ensures EvalExpression(Binary(And, l, r), ctx) ==
      JBool(!(Falsy(EvalExpression(l, ctx)) || Falsy(EvalExpression(r, ctx))))
    ensures EvalExpression(Binary(Or, l, r), ctx) ==
      JBool(!(Falsy(EvalExpression(l, ctx)) && Falsy(EvalExpression(r, ctx))))
  {
    TruthIs(EvalExpression(l, ctx));
    TruthIs(EvalExpression(r, ctx));
  }

  lemma {:induction false} TruthIs(v: Json)
    ensures IsTruthy(v) <==> !Falsy(v)
  {
    assert JArray([]) in [JNull, JBool(false), JString(""), JArray([]), JObject([])];
  }

  lemma {:induction false} DeMorgan(l: Expression, r: Expression, ctx: EvalContext)
    ensures EvalExpression(Binary(And, l, r), ctx) == EvalExpression(Not(Binary(Or, Not(l), Not(r))), ctx)
    ensures EvalExpression(Binary(Or, l, r), ctx) == EvalExpression(Not(Binary(And, Not(l), Not(r))), ctx)
  {
    ConnectivesFollowTruth(l, r, ctx);
    ConnectivesFollowTruth(Not(l), Not(r), ctx);
    NotOf(Binary(Or, Not(l), Not(r)), ctx);
    NotOf(Binary(And, Not(l), Not(r)), ctx);
  }

  lemma {:induction false} NotOf(x: Expression, ctx: EvalContext)
    ensures EvalExpression(Not(x), ctx) == JBool(Falsy(EvalExpression(x, ctx)))
  {
    TruthIs(EvalExpression(x, ctx));
  }

  /** Only null gives way to the right side; every other value, false ones too, stays. */
  lemma {:induction false} CoalesceReplacesNull(l: Expression, r: Expression, ctx: EvalContext)
    ensures EvalExpression(Binary(Coalesce, l, r), ctx) ==
      if EvalExpression(l, ctx).JNull? then EvalExpression(r, ctx) else EvalExpression(l, ctx)
  {
  }

  // ------------------------------------------------------------ literals

  /** A whole number in the signed 64-bit range is that integer, 2^63 itself the largest one; all others are floats. */
  lemma {:induction false} NumberLiterals(x: real, ctx: EvalContext)
    ensures var v := EvalExpression(Lit(Number(x)), ctx);
      && (forall i | Denotes(JNumber(Int(i)), x) && -0x8000_0000_0000_0000 <= i <= 0x7FFF_FFFF_FFFF_FFFF ::
            v == JNumber(Int(i)))
      && (x == 9223372036854775808.0 ==> v == JNumber(Int(0x7FFF_FFFF_FFFF_FFFF)))
      && ((forall i | Denotes(JNumber(Int(i)), x) :: i < -0x8000_0000_0000_0000 || i > 0x8000_0000_0000_0000) ==>
            v == JNumber(Float(x)))
  {
    if x == x.Floor as real {
      assert Denotes(JNumber(Int(x.Floor)), x);
    }
  }

  lemma {:induction false} OtherLiterals(s: string, b: bool, ctx: EvalContext)
    ensures EvalExpression(Lit(Str(s)), ctx) == JString(s)
    ensures EvalExpression(Lit(Bool(b)), ctx) == JBool(b)
    ensures EvalExpression(Lit(Null), ctx) == JNull
  {
  }

  // ------------------------------------------------------------ references

  /** What a bare root stands for: its own part of the context, `$steps.id` the member of that name. */
  ghost predicate Stands(root: Root, ctx: EvalContext, v: Json)
  {
    match root
    case Input => ctx.input == Some(v)
    case Config => ctx.config == Some(v)
    case Secrets => ctx.secrets == Some(v)
    case Trigger => ctx.trigger == Some(v)
    case Vars => ctx.vars == Some(v)
    case Item => ctx.item == Some(v)
    case Implicit => ctx.implicitSource == Some(v)
    case Steps(id) => ctx.steps.Some? && exists i :: IsMember(ctx.steps.value, id, i, v)
  }

  /** The i-th field of the object, the first of that name. */
  predicate IsMember(v: Json, name: string, i: int, x: Json)
  {
    v.JObject? && 0 <= i < |v.fields| && v.fields[i] == (name, x) && forall j | 0 <= j < i :: v.fields[j].0 != name
  }

  /** The value a segment leads to at the i-th place of `v`. */
  ghost predicate LeadsInto(seg: PathSegment, v: Json, i: nat, x: Json)
  {
    match seg
    case Field(name) => IsMember(v, name, i, x)
    case Index(n) => v.JArray? && i == n && i < |v.items| && x == v.items[i]
    case Wildcard => v.JArray? && i < |v.items| && x == v.items[i]
    case FilterEq(name, text) =>
      && v.JArray? && i < |v.items| && x == v.items[i]
      && exists k :: IsMember(v.items[i], name, k, JString(text))
  }

  /** The value the path leads to from `v`, taking the place `at[k]` at its k-th segment. */
  ghost predicate Leads(path: seq<PathSegment>, v: Json, at: seq<nat>, x: Json)
    decreases |path|
  {
    |at| == |path| &&
    if path == [] then x == v
    else exists next :: LeadsInto(path[0], v, at[0], next) && Leads(path[1..], next, at[1..], x)
  }

  /** In document order. */
  predicate Before(a: seq<nat>, b: seq<nat>)
    requires |a| == |b|
  {
    a != [] && (a[0] < b[0] || (a[0] == b[0] && Before(a[1..], b[1..])))
  }

  /** `found` are all values the path leads to, each where it stands, in document order. */
  ghost predicate AllFound(path: seq<PathSegment>, v: Json, ats: seq<seq<nat>>, found: seq<Json>)
  {
    && |ats| == |found|
    && (forall k | 0 <= k < |ats| :: Leads(path, v, ats[k], found[k]))
    && (forall at, x | Leads(path, v, at, x) :: at in ats)
    && forall j, k | 0 <= j < k < |ats| :: |ats[j]| == |ats[k]| == |path| && Before(ats[j], ats[k])
  }

  /** The same for one segment. */
  ghost predicate AllPicked(seg: PathSegment, v: Json, places: seq<nat>, found: seq<Json>)
  {
    && |places| == |found|
    && (forall k | 0 <= k < |places| :: LeadsInto(seg, v, places[k], found[k]))
    && (forall i, x | LeadsInto(seg, v, i, x) :: i in places)
    && forall j, k | 0 <= j < k < |places| :: places[j] < places[k]
  }

  lemma {:induction false} GetIs(v: Json, name: string)
    ensures forall x :: Get(v, name) == Some(x) <==> exists i :: IsMember(v, name, i, x)
  {
    if v.JObject? {
      LookupIs(v.fields, name);
    }
  }

  lemma {:induction false} LookupIs(fields: seq<(string, Json)>, name: string)
    ensures forall x :: Lookup(fields, name) == Some(x) <==> exists i :: IsMember(JObject(fields), name, i, x)
  {
    if fields != [] {
      var rest := fields[1..];
      LookupIs(rest, name);
      forall x
        ensures Lookup(fields, name) == Some(x) <==> exists i :: IsMember(JObject(fields), name, i, x)
      {
        if fields[0].0 == name {
          assert IsMember(JObject(fields), name, 0, fields[0].1);
        } else {
          if i :| IsMember(JObject(rest), name, i, x) {
            assert IsMember(JObject(fields), name, i + 1, x);
          }
          if i :| IsMember(JObject(fields), name, i, x) {
            assert IsMember(JObject(rest), name, i - 1, x);
          }
        }
      }
    }
  }

  lemma {:induction false} FieldEqualsIs(v: Json, name: string, text: string)
    ensures FieldEqualsString(v, name, text) <==> exists k :: IsMember(v, name, k, JString(text))
  {
    GetIs(v, name);
  }

  lemma {:induction false} KeptAre(items: seq<Json>, name: string, text: string) returns (places: seq<nat>)
    ensures |places| == |Keep(items, name, text)|
    ensures forall k | 0 <= k < |places| :: places[k] < |items| && Keep(items, name, text)[k] == items[places[k]]
    ensures forall i: nat :: i in places <==> i < |items| && exists k :: IsMember(items[i], name, k, JString(text))
    ensures forall j, k | 0 <= j < k < |places| :: places[j] < places[k]
  {
    hide IsMember, FieldEqualsString, Keep;
    KeepFirst(items, name, text);
    if items == [] {
      return [];
    }
    var rest := KeptAre(items[1..], name, text);
    var later := Shifted(rest);
    FieldEqualsIs(items[0], name, text);
    places := (if FieldEqualsString(items[0], name, text) then [0] else []) + later;
  }

  lemma {:induction false} KeepFirst(items: seq<Json>, name: string, text: string)
    ensures Keep(items, name, text) == if items == [] then [] else
      (if FieldEqualsString(items[0], name, text) then [items[0]] else []) + Keep(items[1..], name, text)
  {
  }

  lemma {:induction false} Shifted(places: seq<nat>) returns (later: seq<nat>)
    ensures |later| == |places| && forall k | 0 <= k < |later| :: later[k] == places[k] + 1
    ensures forall i: nat :: i in later <==> i > 0 && i - 1 in places
  {
    later := seq(|places|, k requires 0 <= k < |places| => places[k] + 1);
    forall i: nat | i > 0 && i - 1 in places
      ensures i in later
    {
      var k :| 0 <= k < |places| && places[k] == i - 1;
      assert later[k] == i;
    }
  }

  lemma {:induction false} MemberPicked(v: Json, name: string) returns (places: seq<nat>)
    ensures AllPicked(Field(name), v, places, Pick(Field(name), v))
  {
    hide Get;
    GetIs(v, name);
    forall i: nat, x | LeadsInto(Field(name), v, i, x)
      ensures Get(v, name) == Some(x) && IsMember(v, name, i, x)
    {
    }
    if Get(v, name).Some? {
      var i :| IsMember(v, name, i, Get(v, name).value);
      return [i];
    }
    return [];
  }

  lemma {:induction false} IndexPicked(v: Json, n: nat) returns (places: seq<nat>)
    ensures AllPicked(Index(n), v, places, Pick(Index(n), v))
  {
    places := if v.JArray? && n < |v.items| then [n] else [];
  }

  lemma {:induction false} AllItemsPicked(v: Json) returns (places: seq<nat>)
    ensures AllPicked(Wildcard, v, places, Pick(Wildcard, v))
  {
    places := if v.JArray? then seq(|v.items|, i requires 0 <= i => i) else [];
  }

  lemma {:induction false} FilteredPicked(v: Json, name: string, text: string) returns (places: seq<nat>)
    ensures AllPicked(FilterEq(name, text), v, places, Pick(FilterEq(name, text), v))
  {
    hide IsMember, Keep;
    if v.JArray? {
      places := KeptAre(v.items, name, text);
    } else {
      places := [];
    }
  }

  lemma {:induction false} PickedAre(seg: PathSegment, v: Json) returns (places: seq<nat>)
    ensures AllPicked(seg, v, places, Pick(seg, v))
  {
    hide AllPicked, Pick;
    match seg
    case Field(name) => places := MemberPicked(v, name);
    case Index(n) => places := IndexPicked(v, n);
    case Wildcard => places := AllItemsPicked(v);
    case FilterEq(name, text) => places := FilteredPicked(v, name, text);
  }

  /** Places below one picked place. */
  function Under(i: nat, ats: seq<seq<nat>>): seq<seq<nat>>
  {
    seq(|ats|, k requires 0 <= k < |ats| => [i] + ats[k])
  }

  /** The same as `AllFound`, for the ways that begin at one of these places. */
  ghost predicate FoundFrom(path: seq<PathSegment>, v: Json, places: seq<nat>, ats: seq<seq<nat>>, found: seq<Json>)
    requires path != []
  {
    && |ats| == |found|
    && (forall k | 0 <= k < |ats| :: Leads(path, v, ats[k], found[k]) && ats[k][0] in places)
    && (forall at, x | Leads(path, v, at, x) && at[0] in places :: at in ats)
    && forall j, k | 0 <= j < k < |ats| :: |ats[j]| == |ats[k]| == |path| && Before(ats[j], ats[k])
  }

  lemma {:induction false} FoundTogether(path: seq<PathSegment>, v: Json, first: nat, later: seq<nat>,
                                         mine: seq<seq<nat>>, others: seq<seq<nat>>, a: seq<Json>, b: seq<Json>)
    requires path != [] && FoundFrom(path, v, [first], mine, a) && FoundFrom(path, v, later, others, b)
    requires forall i | i in later :: first < i
    ensures FoundFrom(path, v, [first] + later, mine + others, a + b)
  {
    var ats := mine + others;
    forall j, k | 0 <= j < k < |ats|
      ensures |ats[j]| == |ats[k]| == |path| && Before(ats[j], ats[k])
    {
      assert Leads(path, v, ats[j], (a + b)[j]) && Leads(path, v, ats[k], (a + b)[k]);
    }
  }

  /** What the rest of the path finds from each of the picked values in turn. */
  lemma {:induction false} FoundFromEach(path: seq<PathSegment>, v: Json, places: seq<nat>, picked: seq<Json>)
    returns (ats: seq<seq<nat>>)
    requires path != [] && |places| == |picked|
    requires forall k | 0 <= k < |places| :: LeadsInto(path[0], v, places[k], picked[k])
    requires forall j, k | 0 <= j < k < |places| :: places[j] < places[k]
    ensures FoundFrom(path, v, places, ats, Select(path[1..], picked))
    decreases |path|, 0, |picked|
  {
    hide LeadsInto, Select;
    var rest := path[1..];
    if picked == [] {
      SelectNothing(rest);
      return [];
    }
    hide FoundFrom, AllFound;
    var first := FoundAre(rest, picked[0]);
    var others := FoundFromEach(path, v, places[1..], picked[1..]);
    assert picked == [picked[0]] + picked[1..] && places == [places[0]] + places[1..];
    SelectDistributes(rest, [picked[0]], picked[1..]);
    UnderLeads(path, v, places[0], picked[0], first, Select(rest, [picked[0]]));
    FoundTogether(path, v, places[0], places[1..], Under(places[0], first), others, Select(rest, [picked[0]]),
                  Select(rest, picked[1..]));
    ats := Under(places[0], first) + others;
  }

  lemma {:induction false} OnlyOneInto(seg: PathSegment, v: Json, i: nat, x: Json)
    requires LeadsInto(seg, v, i, x)
    ensures forall y | LeadsInto(seg, v, i, y) :: y == x
  {
  }

  lemma {:induction false} UnderLeads(path: seq<PathSegment>, v: Json, i: nat, next: Json, ats: seq<seq<nat>>,
                                      found: seq<Json>)
    requires path != [] && LeadsInto(path[0], v, i, next) && AllFound(path[1..], next, ats, found)
    ensures FoundFrom(path, v, [i], Under(i, ats), found)
  {
    hide LeadsInto, Leads, AllFound;
    UnderLeadsEach(path, v, i, next, ats, found);
    assert forall x: nat :: x in [i] <==> x == i;
  }

  lemma {:induction false} UnderLeadsEach(path: seq<PathSegment>, v: Json, i: nat, next: Json, ats: seq<seq<nat>>,
                                          found: seq<Json>)
    requires path != [] && LeadsInto(path[0], v, i, next) && AllFound(path[1..], next, ats, found)
    ensures |Under(i, ats)| == |found|
    ensures forall k | 0 <= k < |ats| :: Leads(path, v, Under(i, ats)[k], found[k]) && Under(i, ats)[k][0] == i
    ensures forall at, x | Leads(path, v, at, x) && at[0] == i :: at in Under(i, ats)
    ensures forall j, k | 0 <= j < k < |ats| ::
      |Under(i, ats)[j]| == |Under(i, ats)[k]| == |path| && Before(Under(i, ats)[j], Under(i, ats)[k])
  {
    hide LeadsInto;
    var all := Under(i, ats);
    forall k | 0 <= k < |ats|
      ensures Leads(path, v, all[k], found[k]) && all[k][0] == i && all[k][1..] == ats[k]
    {
      assert all[k] == [i] + ats[k] && all[k][1..] == ats[k];
    }
    forall at, x | Leads(path, v, at, x) && at[0] == i
      ensures at in all
    {
      OnlyOneInto(path[0], v, i, next);
      assert Leads(path[1..], next, at[1..], x);
      var k :| 0 <= k < |ats| && ats[k] == at[1..];
      assert at == [i] + at[1..] == all[k];
    }
  }

  /** The selection holds exactly what the path leads to, in document order. */
  lemma {:induction false} FoundAre(path: seq<PathSegment>, v: Json) returns (ats: seq<seq<nat>>)
    ensures AllFound(path, v, ats, Select(path, [v]))
    decreases |path|, 1
  {
    if path == [] {
      ats := [[]];
      assert Leads(path, v, [], v);
      assert forall at, x | Leads(path, v, at, x) :: at == [];
    } else {
      hide LeadsInto, Select;
      var places := PickedAre(path[0], v);
      assert Select(path, [v]) == Select(path[1..], Pick(path[0], v)) by {
        FirstSegment(path, v);
      }
      ats := FoundFromEach(path, v, places, Pick(path[0], v));
      AllStartAtAPlace(path, v, places, Pick(path[0], v));
    }
  }

  lemma {:induction false} AllStartAtAPlace(path: seq<PathSegment>, v: Json, places: seq<nat>, picked: seq<Json>)
    requires path != [] && AllPicked(path[0], v, places, picked)
    ensures forall at, x | Leads(path, v, at, x) :: at[0] in places
  {
    hide LeadsInto;
  }

  lemma {:induction false} FirstSegment(path: seq<PathSegment>, v: Json)
    requires path != []
    ensures Select(path, [v]) == Select(path[1..], Pick(path[0], v))
  {
    assert [v][1..] == [];
    assert FlatMap(path[0], [v]) == Pick(path[0], v);
  }

  /** Nothing found is null, one value is itself, more are the array of all in document order. */
  ghost predicate Yields(found: seq<Json>, value: Json)
  {
    && (|found| == 0 ==> value == JNull)
    && (|found| == 1 ==> value == found[0])
    && (|found| >= 2 ==> value == JArray(found))
  }

  /** A reference is null without its root; else it collects all that its path leads to from there. */
  lemma {:induction false} ReferenceCollects(r: Reference, ctx: EvalContext)
    ensures (forall root :: !Stands(r.root, ctx, root)) ==> EvalExpression(Ref(r), ctx) == JNull
    ensures forall root | Stands(r.root, ctx, root) ::
      exists ats, found :: AllFound(r.path, root, ats, found) && Yields(found, EvalExpression(Ref(r), ctx))
  {
    hide AllFound, Select;
    RootIs(r.root, ctx);
    if ResolveRoot(r.root, ctx).Some? {
      var root := ResolveRoot(r.root, ctx).value;
      var ats := FoundAre(r.path, root);
      assert Yields(Select(r.path, [root]), EvalExpression(Ref(r), ctx));
    }
  }

  lemma {:induction false} RootIs(root: Root, ctx: EvalContext)
    ensures forall v :: ResolveRoot(root, ctx) == Some(v) <==> Stands(root, ctx, v)
    ensures ResolveRoot(root, ctx).Some? ==> Stands(root, ctx, ResolveRoot(root, ctx).value)
  {
    if root.Steps? && ctx.steps.Some? {
      GetIs(ctx.steps.value, root.id);
    }
  }

  // ------------------------------------------------------------ equality of composites

  /** One turn on the way into a value. */
  datatype Into = Member(name: string) | Element(i: nat)

  /** What stands there: a leaf as it is, the length of an array, the keys of an object. */
  datatype Shape = Leaf(v: Json) | Elements(n: nat) | Members(names: set<string>)

  function KeysOf(fields: seq<(string, Json)>): set<string>
  {
    set f | f in fields :: f.0
  }

  ghost predicate StandsAt(v: Json, way: seq<Into>, shape: Shape)
    decreases |way|
  {
    if way == [] then
      match v
      case JArray(items) => shape == Elements(|items|)
      case JObject(fields) => shape == Members(KeysOf(fields))
      case _ => shape == Leaf(v)
    else
      match way[0]
      case Member(name) => exists i, x :: IsMember(v, name, i, x) && StandsAt(x, way[1..], shape)
      case Element(i) => v.JArray? && i < |v.items| && StandsAt(v.items[i], way[1..], shape)
  }

  lemma {:induction false} AsManyKeysAsFields(fields: seq<(string, Json)>)
    requires forall i, j | 0 <= i < j < |fields| :: fields[i].0 != fields[j].0
    ensures |KeysOf(fields)| == |fields|
  {
    if fields != [] {
      AsManyKeysAsFields(fields[1..]);
      assert KeysOf(fields) == {fields[0].0} + KeysOf(fields[1..]) by {
        assert fields == [fields[0]] + fields[1..];
      }
      assert fields[0].0 !in KeysOf(fields[1..]);
    }
  }

  lemma {:induction false} SubsetOfSameSize(a: set<string>, b: set<string>)
    requires a <= b && |a| == |b|
    ensures a == b
  {
    if x :| x in b && x !in a {
      assert |b - {x}| < |b|;
      NotLarger(a, b - {x});
    }
  }

  lemma {:induction false} NotLarger(a: set<string>, b: set<string>)
    requires a <= b
    ensures |a| <= |b|
  {
    assert b == a + (b - a);
  }

  /** The only member of that name. */
  lemma {:induction false} MemberAt(v: Json, i: nat)
    requires v.JObject? && i < |v.fields| && KeysDistinct(v)
    ensures IsMember(v, v.fields[i].0, i, v.fields[i].1)
    ensures forall j, x | IsMember(v, v.fields[i].0, j, x) :: j == i && x == v.fields[i].1
  {
  }

  lemma {:induction false} SameHaveSameKeys(a: Json, b: Json)
    requires a.JObject? && KeysDistinct(a) && KeysDistinct(b) && SameJson(a, b)
    ensures b.JObject? && KeysOf(a.fields) == KeysOf(b.fields)
    ensures forall i, j | 0 <= i < |a.fields| && 0 <= j < |b.fields| && a.fields[i].0 == b.fields[j].0 ::
      SameJson(a.fields[i].1, b.fields[j].1)
  {
    AsManyKeysAsFields(a.fields);
    AsManyKeysAsFields(b.fields);
    forall i | 0 <= i < |a.fields|
      ensures a.fields[i].0 in KeysOf(b.fields)
    {
      var x := Lookup(b.fields, a.fields[i].0).value;
      assert (a.fields[i].0, x) in b.fields;
    }
    SubsetOfSameSize(KeysOf(a.fields), KeysOf(b.fields));
    forall i, j | 0 <= i < |a.fields| && 0 <= j < |b.fields| && a.fields[i].0 == b.fields[j].0
      ensures SameJson(a.fields[i].1, b.fields[j].1)
    {
      LookupFinds(b.fields, j);
    }
  }

  /** A member of either has its like in the other. */
  lemma {:induction false} MembersPair(a: Json, b: Json, name: string)
    requires a.JObject? && KeysDistinct(a) && KeysDistinct(b) && SameJson(a, b)
    ensures forall i, x | IsMember(a, name, i, x) :: exists j, y :: IsMember(b, name, j, y)
    ensures forall j, y | IsMember(b, name, j, y) :: exists i, x :: IsMember(a, name, i, x)
    ensures forall i, x, j, y | IsMember(a, name, i, x) && IsMember(b, name, j, y) ::
      KeysDistinct(x) && KeysDistinct(y) && SameJson(x, y)
  {
    SameHaveSameKeys(a, b);
    if i, x :| IsMember(a, name, i, x) {
      assert name in KeysOf(b.fields);
      var j :| 0 <= j < |b.fields| && b.fields[j].0 == name;
      MemberAt(b, j);
    }
    if j, y :| IsMember(b, name, j, y) {
      assert name in KeysOf(a.fields);
      var i :| 0 <= i < |a.fields| && a.fields[i].0 == name;
      MemberAt(a, i);
    }
  }

  lemma {:induction false} SameStandAlike(a: Json, b: Json, way: seq<Into>, shape: Shape)
    requires KeysDistinct(a) && KeysDistinct(b) && SameJson(a, b)
    ensures StandsAt(a, way, shape) <==> StandsAt(b, way, shape)
    decreases |way|
  {
    if a.JObject? {
      SameHaveSameKeys(a, b);
    }
    if way != [] && way[0].Element? && a.JArray? && way[0].i < |a.items| {
      SameStandAlike(a.items[way[0].i], b.items[way[0].i], way[1..], shape);
    } else if way != [] && way[0].Member? && a.JObject? {
      hide SameJson, IsMember, KeysDistinct;
      var name := way[0].name;
      MembersPair(a, b, name);
      forall i, x, j, y | IsMember(a, name, i, x) && IsMember(b, name, j, y)
        ensures StandsAt(x, way[1..], shape) <==> StandsAt(y, way[1..], shape)
      {
        SameStandAlike(x, y, way[1..], shape);
      }
    }
  }

  ghost predicate Alike(a: Json, b: Json)
  {
    forall way, shape :: StandsAt(a, way, shape) <==> StandsAt(b, way, shape)
  }

  lemma {:induction false} AlikeBelow(a: Json, b: Json, into: Into, x: Json, y: Json)
    requires Alike(a, b)
    requires forall way, shape :: StandsAt(a, [into] + way, shape) <==> StandsAt(x, way, shape)
    requires forall way, shape :: StandsAt(b, [into] + way, shape) <==> StandsAt(y, way, shape)
    ensures Alike(x, y)
  {
    hide StandsAt;
    forall way, shape
      ensures StandsAt(x, way, shape) <==> StandsAt(y, way, shape)
    {
      assert StandsAt(a, [into] + way, shape) <==> StandsAt(b, [into] + way, shape);
    }
  }

  lemma {:induction false} BelowElement(v: Json, i: nat)
    requires v.JArray? && i < |v.items|
    ensures forall way, shape :: StandsAt(v, [Element(i)] + way, shape) <==> StandsAt(v.items[i], way, shape)
  {
    forall way, shape
      ensures StandsAt(v, [Element(i)] + way, shape) <==> StandsAt(v.items[i], way, shape)
    {
      assert ([Element(i)] + way)[1..] == way;
    }
  }

  lemma {:induction false} BelowMember(v: Json, i: nat)
    requires v.JObject? && i < |v.fields| && KeysDistinct(v)
    ensures forall way, shape ::
      StandsAt(v, [Member(v.fields[i].0)] + way, shape) <==> StandsAt(v.fields[i].1, way, shape)
  {
    hide IsMember;
    MemberAt(v, i);
    forall way, shape
      ensures StandsAt(v, [Member(v.fields[i].0)] + way, shape) <==> StandsAt(v.fields[i].1, way, shape)
    {
      assert ([Member(v.fields[i].0)] + way)[1..] == way;
    }
  }

  lemma {:induction false} AlikeAreSame(a: Json, b: Json)
    requires KeysDistinct(a) && KeysDistinct(b) && Alike(a, b)
    ensures SameJson(a, b)
    decreases a
  {
    SameKind(a, b);
    match a
    case JArray(items) =>
      forall i | 0 <= i < |items|
        ensures SameJson(items[i], b.items[i])
      {
        BelowElement(a, i);
        BelowElement(b, i);
        AlikeBelow(a, b, Element(i), items[i], b.items[i]);
        AlikeAreSame(items[i], b.items[i]);
      }
    case JObject(fields) =>
      AsManyKeysAsFields(fields);
      AsManyKeysAsFields(b.fields);
      forall i | 0 <= i < |fields|
        ensures Lookup(b.fields, fields[i].0).Some? && SameJson(fields[i].1, Lookup(b.fields, fields[i].0).value)
      {
        assert fields[i].0 in KeysOf(b.fields);
        var j :| 0 <= j < |b.fields| && b.fields[j].0 == fields[i].0;
        LookupFinds(b.fields, j);
        BelowMember(a, i);
        BelowMember(b, j);
        AlikeBelow(a, b, Member(fields[i].0), fields[i].1, b.fields[j].1);
        AlikeAreSame(fields[i].1, b.fields[j].1);
      }
    case _ =>
  }

  lemma {:induction false} SameKind(a: Json, b: Json)
    requires Alike(a, b)
    ensures match a
      case JArray(items) => b.JArray? && |b.items| == |items|
      case JObject(fields) => b.JObject? && KeysOf(b.fields) == KeysOf(fields)
      case _ => b == a
  {
    var shape := match a
      case JArray(items) => Elements(|items|)
      case JObject(fields) => Members(KeysOf(fields))
      case _ => Leaf(a);
    assert StandsAt(a, [], shape);
    assert StandsAt(b, [], shape);
  }

  /**
   * Two values of which not both are numbers are equal exactly when the same stands at every place inside them; there a
   * number is equal only to itself kept in the same form.
   */
  lemma {:induction false} EqualExactlyWhenAlike(l: Expression, r: Expression, ctx: EvalContext)
    requires KeysDistinct(EvalExpression(l, ctx)) && KeysDistinct(EvalExpression(r, ctx))
    requires !(EvalExpression(l, ctx).JNumber? && EvalExpression(r, ctx).JNumber?)
    ensures EvalExpression(Binary(Eq, l, r), ctx) == JBool(Alike(EvalExpression(l, ctx), EvalExpression(r, ctx)))
  {
    var a, b := EvalExpression(l, ctx), EvalExpression(r, ctx);
    if SameJson(a, b) {
      forall way, shape
        ensures StandsAt(a, way, shape) <==> StandsAt(b, way, shape)
      {
        SameStandAlike(a, b, way, shape);
      }
    }
    if Alike(a, b) {
      AlikeAreSame(a, b);
    }
  }

  // ------------------------------------------------------------ the stack

  /** What the left operand decides leaves the right one alone, however tall it is. */
  lemma {:induction false} RightIsNotEvaluated(l: Expression, r: Expression, ctx: EvalContext, frames: nat)
    requires frames > Height(l)
    ensures Falsy(EvalExpression(l, ctx)) ==> EvalOnStack(Binary(And, l, r), ctx, frames) == Some(JBool(false))
    ensures !Falsy(EvalExpression(l, ctx)) ==> EvalOnStack(Binary(Or, l, r), ctx, frames) == Some(JBool(true))
    ensures !EvalExpression(l, ctx).JNull? ==>
      EvalOnStack(Binary(Coalesce, l, r), ctx, frames) == Some(EvalExpression(l, ctx))
  {
    HeightIsEnoughStack(l, ctx, frames - 1);
    TruthIs(EvalExpression(l, ctx));
  }

  predicate Strict(e: Expression)
  {
    match e
    case Lit(_) | Ref(_) => true
    case Not(x) => Strict(x)
    case Binary(op, l, r) => op !in [And, Or, Coalesce] && Strict(l) && Strict(r)
  }

  /** Without the three lazy operators the height is needed to the last frame. */
  lemma {:induction false} LessIsOverflow(e: Expression, ctx: EvalContext, frames: nat)
    requires Strict(e) && frames < Height(e)
    ensures EvalOnStack(e, ctx, frames) == None
  {
    if frames > 0 {
      match e
      case Lit(_) =>
      case Ref(_) =>
      case Not(x) => LessIsOverflow(x, ctx, frames - 1);
      case Binary(op, l, r) =>
        if frames - 1 < Height(l) {
          LessIsOverflow(l, ctx, frames - 1);
        } else {
          LessIsOverflow(r, ctx, frames - 1);
        }
    }
  }
}

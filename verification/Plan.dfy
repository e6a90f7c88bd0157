/** Building an action's execution plan from its steps. */
module Plan {
  import opened Json
  import opened Waves
  import opened Wrappers

  import Ast
  import Grammar
  import Layouts
  import Printer
  import Scanner
  import ScannerAgrees

  /** `dependsOn` are the explicitly declared dependencies. */
  datatype StepDef = StepDef(id: string, params: Json, dependsOn: seq<string>)

  datatype DagPlan = DagPlan(waves: seq<seq<nat>>, deps: Deps, consumers: seq<seq<nat>>)

  datatype DagError =
    | DuplicateStepId(id: string)
    | UnknownStepRef(from: string, to: string)
    | ForwardRef(from: string, to: string)
    | SelfRef(id: string)
    | Cycle(stuck: seq<nat>)
    | UnrootedStepsReference(step: string)

  // ------------------------------------------------------------ what a step refers to

  /** Every string value in `v`, in walk order; object keys are not values. */
  function StringsIn(v: Json): seq<string>
    decreases v
  {
    match v
    case JString(s) => [s]
    case JArray(items) => StringsInItems(items)
    case JObject(fields) => StringsInFields(fields)
    case _ => []
  }

  function StringsInItems(items: seq<Json>): seq<string>
    decreases items
  {
    if items == [] then [] else StringsIn(items[0]) + StringsInItems(items[1..])
  }

  function StringsInFields(fields: seq<(string, Json)>): seq<string>
    decreases fields
  {
    if fields == [] then []
    else
      var f := fields[0];
      assert f.1 < f;
      StringsIn(f.1) + StringsInFields(fields[1..])
  }

  /** The ids the scanner captures in a parameter value, in order. */
  function ScanAll(texts: seq<string>): seq<string>
  {
    if texts == [] then [] else Scanner.Scan(texts[0]) + ScanAll(texts[1..])
  }

  /** Keys whose value is an array of inner step definitions. */
  const INNER_BODY_KEYS: seq<string> := ["steps", "then", "try", "catch", "finally"]

  /** The ids of every step defined inside `params`, at any depth. */
  function InnerStepIds(params: Json): set<string>
    decreases params, 2
  {
    var ifs := Get(params, "ifs");
    var branches := Get(params, "branches");
    (if ifs.Some? && ifs.value.JArray? then InnerIdsOfEach(ifs.value.items) else {})
    + (if branches.Some? && branches.value.JArray? then ArrayIdsOfEach(branches.value.items) else {})
    + BodyIds(params, INNER_BODY_KEYS)
  }

  function BodyIds(params: Json, keys: seq<string>): set<string>
    decreases params, 1, |keys|
  {
    if keys == [] then {}
    else (match Get(params, keys[0]) case None => {} case Some(v) => ArrayIds(v)) + BodyIds(params, keys[1..])
  }

  function InnerIdsOfEach(items: seq<Json>): set<string>
    decreases items
  {
    if items == [] then {} else InnerStepIds(items[0]) + InnerIdsOfEach(items[1..])
  }

  function ArrayIdsOfEach(items: seq<Json>): set<string>
    decreases items
  {
    if items == [] then {} else ArrayIds(items[0]) + ArrayIdsOfEach(items[1..])
  }

  /** The ids of an array of step definitions and of their own bodies; nothing for another value. */
  function ArrayIds(v: Json): set<string>
    decreases v, 0
  {
    if v.JArray? then StepIdsOfEach(v.items) else {}
  }

  function StepIdsOfEach(items: seq<Json>): set<string>
    decreases items
  {
    if items == [] then {}
    else
      (match Get(items[0], "id") case Some(JString(id)) => {id} case _ => {})
      + (match Get(items[0], "params") case None => {} case Some(p) => InnerStepIds(p))
      + StepIdsOfEach(items[1..])
  }

  // ------------------------------------------------------------ unrooted templates

  /** The white space of the template pattern: all of Unicode's. */
  predicate IsPatternSpace(c: char)
  {
    var u := c as int;
    0x09 <= u <= 0x0D || u == 0x20 || u == 0x85 || u == 0xA0 || u == 0x1680 || 0x2000 <= u <= 0x200A
    || u == 0x2028 || u == 0x2029 || u == 0x202F || u == 0x205F || u == 0x3000
  }

  function SkipPatternSpace(s: string): string
  {
    if s != "" && IsPatternSpace(s[0]) then SkipPatternSpace(s[1..]) else s
  }

  /** `{{`, white space, `steps.` */
  predicate StartsUnrooted(s: string)
  {
    "{{" <= s && "steps." <= SkipPatternSpace(s[2..])
  }

  predicate HasUnrooted(s: string)
  {
    s != "" && (StartsUnrooted(s) || HasUnrooted(s[1..]))
  }

  predicate ContainsUnrootedTemplate(params: Json)
  {
    exists s | s in StringsIn(params) :: HasUnrooted(s)
  }

  // ------------------------------------------------------------ a step's dependencies

  /** First occurrences only. */
  function Dedupe(xs: seq<string>): (r: seq<string>)
    ensures forall x :: x in r <==> x in xs
    ensures forall a, b | 0 <= a < b < |r| :: r[a] != r[b]
  {
    if xs == [] then []
    else
      var r, x := Dedupe(xs[..|xs| - 1]), xs[|xs| - 1];
      assert forall y :: y in xs <==> y in xs[..|xs| - 1] || y == x;
      if x in r then r else r + [x]
  }

  /** Those not defined inside the step itself. */
  function Outside(ids: seq<string>, inner: set<string>): (r: seq<string>)
    ensures forall x :: x in r <==> x in ids && x !in inner
  {
    if ids == [] then []
    else
      var r, x := Outside(ids[..|ids| - 1], inner), ids[|ids| - 1];
      assert forall y :: y in ids <==> y in ids[..|ids| - 1] || y == x;
      if x in inner then r else r + [x]
  }

  /** Declared dependencies first, then the scanned references that leave the step, each once. */
  function StepDeps(step: StepDef): (r: seq<string>)
    ensures forall a, b | 0 <= a < b < |r| :: r[a] != r[b]
  {
    Dedupe(step.dependsOn + Outside(Dedupe(ScanAll(StringsIn(step.params))), InnerStepIds(step.params)))
  }

  /** What makes a dependency: declared, or scanned in the parameters and not defined inside the step. */
  lemma {:induction false} StepDepsAre(step: StepDef, id: string)
    ensures id in StepDeps(step) <==>
      id in step.dependsOn || (id in ScanAll(StringsIn(step.params)) && id !in InnerStepIds(step.params))
  {
  }

  lemma {:induction false} ScanAllHas(texts: seq<string>, text: string, id: string)
    requires text in texts && id in Scanner.Scan(text)
    ensures id in ScanAll(texts)
  {
    if text != texts[0] {
      ScanAllHas(texts[1..], text, id);
    }
  }

  /** The text is the expression, or holds it in double braces. */
  ghost predicate Holds(text: string, s: string)
  {
    text == s || exists pre, post :: text == Scanner.Template(pre, s, post)
  }

  lemma {:induction false} HeldIsScanned(text: string, s: string, id: string)
    requires Holds(text, s) && id in Scanner.Scan(s)
    ensures id in Scanner.Scan(text)
  {
    hide Scanner.Template, Scanner.Scan;
    if text != s {
      var pre, post :| text == Scanner.Template(pre, s, post);
      Scanner.ScanTemplate(pre, s, post);
    }
  }

  /**
   * Every step an expression in the parameters refers to is a dependency, unless it is defined inside the step: whether
   * the expression is a whole string or stands in a template inside a longer one.
   */
  lemma {:induction false} ReferencesAreDependencies(step: StepDef, text: string, s: string, l: Layouts.Layout,
                                                     c: Grammar.Cst, e: Ast.Expression, id: string)
    requires text in StringsIn(step.params) && Holds(text, s)
    requires Printer.Writes(l, c, s, e) && ScannerAgrees.Tight(l) && ScannerAgrees.Quiet(l)
    requires id in ScannerAgrees.StepIds(e) && id !in InnerStepIds(step.params)
    ensures Printer.ParseText(s) == Some(e) && id in StepDeps(step)
  {
    ScannerAgrees.ScanFindsParsedIds(l, c, s, e);
    HeldIsScanned(text, s, id);
    ScanAllHas(StringsIn(step.params), text, id);
    StepDepsAre(step, id);
  }

  /** Only the first push of an id has an effect. */
  method PushUnique(id: string, seen: set<string>, out: seq<string>) returns (seen': set<string>, out': seq<string>)
    requires forall x :: x in seen <==> x in out
    ensures forall x :: x in seen' <==> x in out'
    ensures out' == if id in out then out else out + [id]
  {
    seen', out' := seen, out;
    if id !in seen {
      seen', out' := seen + {id}, out + [id];
    }
  }

  lemma {:induction false} DedupeSnoc(xs: seq<string>, x: string)
    ensures Dedupe(xs + [x]) == if x in Dedupe(xs) then Dedupe(xs) else Dedupe(xs) + [x]
  {
    assert (xs + [x])[..|xs|] == xs;
  }

  lemma {:induction false} OutsideSnoc(ids: seq<string>, x: string, inner: set<string>)
    ensures Outside(ids + [x], inner) == if x in inner then Outside(ids, inner) else Outside(ids, inner) + [x]
  {
    assert (ids + [x])[..|ids|] == ids;
  }

  lemma {:induction false} TakeNext(xs: seq<string>, k: nat)
    requires k < |xs|
    ensures xs[..k + 1] == xs[..k] + [xs[k]] && xs[..|xs|] == xs
  {
  }

  /** The loop that pushes each id in turn onto what was pushed before. */
  method PushAll(ids: seq<string>, seen0: set<string>, out0: seq<string>, ghost before: seq<string> := [])
    returns (seen: set<string>, out: seq<string>)
    requires out0 == Dedupe(before) && forall x :: x in seen0 <==> x in out0
    ensures out == Dedupe(before + ids) && forall x :: x in seen <==> x in out
  {
    hide Dedupe;
    seen, out := seen0, out0;
    assert before + ids[..0] == before;
    for k := 0 to |ids|
      invariant out == Dedupe(before + ids[..k]) && forall x :: x in seen <==> x in out
    {
      TakeNext(ids, k);
      assert before + ids[..k + 1] == before + ids[..k] + [ids[k]];
      DedupeSnoc(before + ids[..k], ids[k]);
      seen, out := PushUnique(ids[k], seen, out);
    }
    assert before + ids[..|ids|] == before + ids;
  }

  /** `seen` and `out` after pushing the ids of `ids` in turn, first occurrences only. */
  ghost predicate Pushed(ids: seq<string>, seen: set<string>, out: seq<string>)
  {
    out == Dedupe(ids) && forall x :: x in seen <==> x in out
  }

  method ScanString(s: string, seen: set<string>, out: seq<string>, ghost before: seq<string>)
    returns (seen': set<string>, out': seq<string>)
    requires Pushed(before, seen, out)
    ensures Pushed(before + Scanner.Scan(s), seen', out')
  {
    hide Dedupe, Scanner.MatchesAt, Scanner.Captured;
    seen', out' := seen, out;
    var rest := s;
    ghost var found: seq<string> := [];
    assert before + found == before;
    while rest != ""
      invariant Scanner.Scan(s) == found + Scanner.Scan(rest) && Pushed(before + found, seen', out')
      decreases |rest|
    {
      if Scanner.MatchesAt(rest) {
        var id := Scanner.Captured(rest);
        assert before + (found + [id]) == before + found + [id];
        DedupeSnoc(before + found, id);
        seen', out' := PushUnique(id, seen', out');
        found := found + [id];
        rest := rest[7 + |id|..];
      } else {
        rest := rest[1..];
      }
    }
    assert found + Scanner.Scan("") == found;
  }

  lemma {:induction false} ScanAllConcat(a: seq<string>, b: seq<string>)
    ensures ScanAll(a + b) == ScanAll(a) + ScanAll(b)
  {
    if a == [] {
      assert a + b == b;
    } else {
      assert (a + b)[0] == a[0] && (a + b)[1..] == a[1..] + b;
      ScanAllConcat(a[1..], b);
    }
  }

  /** Strings at any depth, object keys left out. */
  method ScanValue(v: Json, seen: set<string>, out: seq<string>, ghost before: seq<string>)
    returns (seen': set<string>, out': seq<string>)
    requires Pushed(before, seen, out)
    ensures Pushed(before + ScanAll(StringsIn(v)), seen', out')
    decreases v, 1
  {
    hide Pushed, ScanAll;
    match v {
      case JString(s) =>
        seen', out' := ScanString(s, seen, out, before);
        ScanOne(s);
      case JArray(items) =>
        seen', out' := ScanItems(items, seen, out, before);
      case JObject(fields) =>
        seen', out' := ScanFields(fields, seen, out, before);
      case _ =>
        seen', out' := seen, out;
        ScanNone(before);
    }
  }

  lemma {:induction false} ScanOne(s: string)
    ensures ScanAll([s]) == Scanner.Scan(s)
  {
    assert [s][1..] == [];
    assert ScanAll([s]) == Scanner.Scan(s) + ScanAll([s][1..]);
  }

  lemma {:induction false} ScanNone(before: seq<string>)
    ensures before + ScanAll([]) == before
  {
  }

  method ScanItems(items: seq<Json>, seen: set<string>, out: seq<string>, ghost before: seq<string>)
    returns (seen': set<string>, out': seq<string>)
    requires Pushed(before, seen, out)
    ensures Pushed(before + ScanAll(StringsInItems(items)), seen', out')
    decreases items, 0
  {
    hide Pushed, ScanAll, StringsIn;
    seen', out' := seen, out;
    ghost var found: seq<string> := [];
    assert before + found == before;
    for k := 0 to |items|
      invariant ScanAll(StringsInItems(items)) == found + ScanAll(StringsInItems(items[k..]))
      invariant Pushed(before + found, seen', out')
    {
      ghost var more := ScanAll(StringsIn(items[k]));
      NextItem(items, k);
      assert before + found + more == before + (found + more);
      seen', out' := ScanValue(items[k], seen', out', before + found);
      found := found + more;
    }
    ScanNone(found);
  }

  method ScanFields(fields: seq<(string, Json)>, seen: set<string>, out: seq<string>, ghost before: seq<string>)
    returns (seen': set<string>, out': seq<string>)
    requires Pushed(before, seen, out)
    ensures Pushed(before + ScanAll(StringsInFields(fields)), seen', out')
    decreases fields, 0
  {
    hide Pushed, ScanAll, StringsIn;
    seen', out' := seen, out;
    ghost var found: seq<string> := [];
    assert before + found == before;
    for k := 0 to |fields|
      invariant ScanAll(StringsInFields(fields)) == found + ScanAll(StringsInFields(fields[k..]))
      invariant Pushed(before + found, seen', out')
    {
      var f := fields[k];
      assert f.1 < f;
      ghost var more := ScanAll(StringsIn(f.1));
      NextField(fields, k);
      assert before + found + more == before + (found + more);
      seen', out' := ScanValue(f.1, seen', out', before + found);
      found := found + more;
    }
    ScanNone(found);
  }

  lemma {:induction false} NextItem(items: seq<Json>, k: nat)
    requires k < |items|
    ensures ScanAll(StringsInItems(items[k..])) ==
      ScanAll(StringsIn(items[k])) + ScanAll(StringsInItems(items[k + 1..]))
  {
    assert items[k..][0] == items[k] && items[k..][1..] == items[k + 1..];
    ScanAllConcat(StringsIn(items[k]), StringsInItems(items[k + 1..]));
  }

  lemma {:induction false} NextField(fields: seq<(string, Json)>, k: nat)
    requires k < |fields|
    ensures ScanAll(StringsInFields(fields[k..])) ==
      ScanAll(StringsIn(fields[k].1)) + ScanAll(StringsInFields(fields[k + 1..]))
  {
    assert fields[k..][0] == fields[k] && fields[k..][1..] == fields[k + 1..];
    ScanAllConcat(StringsIn(fields[k].1), StringsInFields(fields[k + 1..]));
  }

  method CollectInnerStepIds(params: Json, out: set<string>) returns (out': set<string>)
    ensures out' == out + InnerStepIds(params)
    decreases params, 2
  {
    hide Get, ArrayIdsOfEach, InnerIdsOfEach, BodyIds;
    out' := out;
    var ifs, branches := Get(params, "ifs"), Get(params, "branches");
    if ifs.Some? && ifs.value.JArray? {
      out' := CollectFromIfs(ifs.value.items, out');
    }
    if branches.Some? && branches.value.JArray? {
      out' := CollectFromBranches(branches.value.items, out');
    }
    out' := CollectFromBodies(params, INNER_BODY_KEYS, out');
  }

  method CollectFromBodies(params: Json, keys: seq<string>, out: set<string>) returns (out': set<string>)
    ensures out' == out + BodyIds(params, keys)
    decreases params, 1
  {
    hide ArrayIds;
    out' := out;
    for k := 0 to |keys|
      invariant out' + BodyIds(params, keys[k..]) == out + BodyIds(params, keys)
    {
      assert keys[k..][0] == keys[k] && keys[k..][1..] == keys[k + 1..];
      var body := Get(params, keys[k]);
      if body.Some? {
        out' := CollectStepIdsInArray(body.value, out');
      }
    }
  }

  method CollectFromIfs(items: seq<Json>, out: set<string>) returns (out': set<string>)
    ensures out' == out + InnerIdsOfEach(items)
    decreases items
  {
    hide InnerStepIds;
    out' := out;
    for k := 0 to |items|
      invariant out' + InnerIdsOfEach(items[k..]) == out + InnerIdsOfEach(items)
    {
      assert items[k..][0] == items[k] && items[k..][1..] == items[k + 1..];
      out' := CollectInnerStepIds(items[k], out');
    }
  }

  method CollectFromBranches(items: seq<Json>, out: set<string>) returns (out': set<string>)
    ensures out' == out + ArrayIdsOfEach(items)
    decreases items
  {
    hide ArrayIds;
    out' := out;
    for k := 0 to |items|
      invariant out' + ArrayIdsOfEach(items[k..]) == out + ArrayIdsOfEach(items)
    {
      assert items[k..][0] == items[k] && items[k..][1..] == items[k + 1..];
      out' := CollectStepIdsInArray(items[k], out');
    }
  }

  method CollectStepIdsInArray(v: Json, out: set<string>) returns (out': set<string>)
    ensures out' == out + ArrayIds(v)
    decreases v, 0
  {
    out' := out;
    if !v.JArray? {
      return;
    }
    for k := 0 to |v.items|
      invariant out' + StepIdsOfEach(v.items[k..]) == out + StepIdsOfEach(v.items)
    {
      var item := v.items[k];
      assert v.items[k..][0] == item && v.items[k..][1..] == v.items[k + 1..];
      match Get(item, "id") {
        case Some(JString(id)) => out' := out' + {id};
        case _ =>
      }
      var params := Get(item, "params");
      if params.Some? {
        out' := CollectInnerStepIds(params.value, out');
      }
    }
  }

  method ExtractStepDeps(step: StepDef) returns (out: seq<string>)
    ensures out == StepDeps(step)
  {
    hide Dedupe, Outside, InnerStepIds, StringsIn, ScanAll;
    var seen: set<string>;
    DedupeNone();
    seen, out := PushAll(step.dependsOn, {}, []);
    assert [] + step.dependsOn == step.dependsOn;
    var inner := CollectInnerStepIds(step.params, {});
    assert {} + InnerStepIds(step.params) == InnerStepIds(step.params);
    var localSeen, scanned := ScanValue(step.params, {}, [], []);
    assert [] + ScanAll(StringsIn(step.params)) == ScanAll(StringsIn(step.params));
    var outer: seq<string> := [];
    OutsideNone(inner);
    assert scanned[..0] == [];
    for k := 0 to |scanned|
      invariant outer == Outside(scanned[..k], inner)
    {
      TakeNext(scanned, k);
      OutsideSnoc(scanned[..k], scanned[k], inner);
      if scanned[k] !in inner {
        outer := outer + [scanned[k]];
      }
    }
    assert scanned[..|scanned|] == scanned;
    seen, out := PushAll(outer, seen, out, step.dependsOn);
  }

  lemma {:induction false} DedupeNone()
    ensures Dedupe([]) == []
  {
  }

  lemma {:induction false} OutsideNone(inner: set<string>)
    ensures Outside([], inner) == []
  {
  }

  // ------------------------------------------------------------ the plan

  predicate UniqueIds(steps: seq<StepDef>)
  {
    forall i, j | 0 <= i < j < |steps| :: steps[i].id != steps[j].id
  }

  /** Every reference of step `i` names an earlier step. */
  ghost predicate RefsEarlier(steps: seq<StepDef>, i: nat)
    requires i < |steps|
  {
    forall ref | ref in StepDeps(steps[i]) :: exists j :: 0 <= j < i && steps[j].id == ref
  }

  /** A manifest the planner accepts. */
  ghost predicate Plannable(steps: seq<StepDef>)
  {
    && UniqueIds(steps)
    && forall i: nat | i < |steps| :: !ContainsUnrootedTemplate(steps[i].params) && RefsEarlier(steps, i)
  }

  /** The indices of the referenced steps, reference by reference. */
  ghost predicate Resolves(steps: seq<StepDef>, refs: seq<string>, targets: seq<nat>)
  {
    |targets| == |refs| && forall k | 0 <= k < |refs| :: targets[k] < |steps| && steps[targets[k]].id == refs[k]
  }

  /** `consumers` is the inverse of `deps`, each list ascending. */
  ghost predicate Inverse(deps: Deps, consumers: seq<seq<nat>>)
  {
    && |consumers| == |deps|
    && (forall i: nat | i < |consumers| :: Ascending(consumers[i]))
    && forall i: nat, j: nat :: i < |deps| ==> (j in consumers[i] <==> Edge(deps, j, i))
  }

  ghost predicate Describes(plan: DagPlan, steps: seq<StepDef>)
  {
    && |plan.deps| == |steps|
    && (forall i: nat | i < |steps| :: Resolves(steps, StepDeps(steps[i]), plan.deps[i]))
    && (forall i: nat, d: nat :: Edge(plan.deps, i, d) ==> d < i)
    && Inverse(plan.deps, plan.consumers)
    && exists level :: IsTight(plan.deps, level) && ListsLevels(plan.waves, level)
  }

  /** What each rejection says about the steps. */
  ghost predicate Truthful(e: DagError, steps: seq<StepDef>)
  {
    match e
    case DuplicateStepId(id) => exists i, j :: 0 <= i < j < |steps| && steps[i].id == steps[j].id == id
    case UnrootedStepsReference(id) => exists i ::
      0 <= i < |steps| && steps[i].id == id && ContainsUnrootedTemplate(steps[i].params)
    case SelfRef(id) => exists i :: 0 <= i < |steps| && steps[i].id == id && id in StepDeps(steps[i])
    case UnknownStepRef(from, to) =>
      exists i ::
        && 0 <= i < |steps| && steps[i].id == from && to in StepDeps(steps[i])
        && forall j | 0 <= j < |steps| :: steps[j].id != to
    case ForwardRef(from, to) =>
      exists i, j :: 0 <= i < j < |steps| && steps[i].id == from && to in StepDeps(steps[i]) && steps[j].id == to
    case Cycle(_) => false
  }

  /** The index lookup built by the first loop. */
  ghost predicate Indexes(idToIndex: map<string, nat>, steps: seq<StepDef>, n: nat)
  {
    && n <= |steps|
    && (forall id | id in idToIndex :: idToIndex[id] < n && steps[idToIndex[id]].id == id)
    && forall j: nat | j < n :: steps[j].id in idToIndex
  }

  method IndexIds(steps: seq<StepDef>) returns (r: Result<map<string, nat>, DagError>)
    ensures r.Ok? <==> UniqueIds(steps)
    ensures r.Ok? ==> Indexes(r.value, steps, |steps|)
    ensures r.Err? ==> Truthful(r.error, steps)
  {
    var idToIndex: map<string, nat> := map[];
    for i := 0 to |steps|
      invariant Indexes(idToIndex, steps, i) && UniqueIds(steps[..i])
    {
      if steps[i].id in idToIndex {
        var j := idToIndex[steps[i].id];
        assert steps[j].id == steps[i].id;
        return Err(DuplicateStepId(steps[i].id));
      }
      idToIndex := idToIndex[steps[i].id := i];
    }
    assert steps[..|steps|] == steps;
    return Ok(idToIndex);
  }

  /** `i` added to the consumers of each target. */
  ghost predicate Adds(before: seq<seq<nat>>, after: seq<seq<nat>>, i: nat, targets: seq<nat>)
  {
    |after| == |before|
    && forall t: nat | t < |before| :: after[t] == if t in targets then before[t] + [i] else before[t]
  }

  lemma {:induction false} NotEarlier(steps: seq<StepDef>, i: nat, ref: string)
    requires i < |steps| && ref in StepDeps(steps[i]) && forall j | 0 <= j < i :: steps[j].id != ref
    ensures !RefsEarlier(steps, i)
  {
    hide StepDeps;
  }

  lemma {:induction false} NewTarget(steps: seq<StepDef>, refs: seq<string>, k: nat, targets: seq<nat>, target: nat)
    requires k < |refs| && target < |steps| && steps[target].id == refs[k]
    requires forall a, b | 0 <= a < b < |refs| :: refs[a] != refs[b]
    requires Resolves(steps, refs[..k], targets)
    ensures target !in targets
  {
    assert forall m | 0 <= m < |targets| :: steps[targets[m]].id == refs[..k][m] == refs[m];
  }

  /** One step's references resolved, and the step entered as a consumer of each. */
  method ResolveStep(steps: seq<StepDef>, idToIndex: map<string, nat>, i: nat, consumers: seq<seq<nat>>)
    returns (r: Result<(seq<nat>, seq<seq<nat>>), DagError>)
    requires i < |steps| == |consumers| && UniqueIds(steps) && Indexes(idToIndex, steps, |steps|)
    ensures r.Ok? <==> RefsEarlier(steps, i)
    ensures r.Ok? ==> Resolves(steps, StepDeps(steps[i]), r.value.0) && Adds(consumers, r.value.1, i, r.value.0)
    ensures r.Ok? ==> forall k | 0 <= k < |r.value.0| :: r.value.0[k] < i
    ensures r.Err? ==> Truthful(r.error, steps)
  {
    hide StepDeps;
    var refs := ExtractStepDeps(steps[i]);
    var seen: set<nat>, targets: seq<nat>, after := {}, [], consumers;
    for k := 0 to |refs|
      invariant Resolves(steps, refs[..k], targets) && Adds(consumers, after, i, targets)
      invariant forall t | t in seen :: t in targets
      invariant forall m | 0 <= m < k :: targets[m] < i
    {
      var ref := refs[k];
      if ref == steps[i].id {
        NotEarlier(steps, i, ref);
        return Err(SelfRef(ref));
      }
      if ref !in idToIndex {
        NotEarlier(steps, i, ref);
        return Err(UnknownStepRef(steps[i].id, ref));
      }
      var target := idToIndex[ref];
      if target > i {
        assert steps[target].id == ref;
        NotEarlier(steps, i, ref);
        return Err(ForwardRef(steps[i].id, ref));
      }
      NewTarget(steps, refs, k, targets, target);
      assert refs[..k + 1] == refs[..k] + [ref];
      if target !in seen {
        seen := seen + {target};
        targets := targets + [target];
        after := after[target := after[target] + [i]];
      }
    }
    assert refs[..|refs|] == refs;
    return Ok((targets, after));
  }

  /** What the second loop has built after the first `n` steps. */
  ghost predicate Built(steps: seq<StepDef>, n: nat, deps: Deps, consumers: seq<seq<nat>>)
  {
    && n <= |steps| == |deps|
    && (forall i: nat | i < n :: Resolves(steps, StepDeps(steps[i]), deps[i]))
    && (forall i: nat | n <= i < |steps| :: deps[i] == [])
    && (forall i: nat, d: nat :: Edge(deps, i, d) ==> d < i)
    && Inverse(deps, consumers)
  }

  lemma {:induction false} NothingBuilt(steps: seq<StepDef>, deps: Deps, consumers: seq<seq<nat>>)
    requires |deps| == |consumers| == |steps|
    requires forall i | 0 <= i < |steps| :: deps[i] == [] && consumers[i] == []
    ensures Built(steps, 0, deps, consumers)
  {
  }

  lemma {:induction false} BuiltShape(deps: Deps, consumers: seq<seq<nat>>)
    requires Inverse(deps, consumers)
    ensures |consumers| == |deps|
  {
  }

  lemma {:induction false} BuildsOne(steps: seq<StepDef>, i: nat, deps: Deps, consumers: seq<seq<nat>>,
                                     targets: seq<nat>, after: seq<seq<nat>>)
    requires i < |steps| && Built(steps, i, deps, consumers)
    requires Resolves(steps, StepDeps(steps[i]), targets) && Adds(consumers, after, i, targets)
    requires forall k | 0 <= k < |targets| :: targets[k] < i
    ensures Built(steps, i + 1, deps[i := targets], after)
  {
    hide StepDeps, Resolves, Inverse, Adds;
    BuiltShape(deps, consumers);
    EdgesAfter(deps, i, targets);
    InverseAfter(steps, deps, consumers, i, targets, after);
    var now := deps[i := targets];
    assert forall j: nat | j < |steps| :: now[j] == if j == i then targets else deps[j];
    forall j: nat, d: nat | Edge(now, j, d)
      ensures d < j
    {
      assert if j == i then d in targets else Edge(deps, j, d);
    }
    assert forall j: nat | j < i + 1 :: Resolves(steps, StepDeps(steps[j]), now[j]);
    assert forall j: nat | i + 1 <= j < |steps| :: now[j] == [];
  }

  lemma {:induction false} EdgesAfter(deps: Deps, i: nat, targets: seq<nat>)
    requires i < |deps| && deps[i] == []
    ensures forall j: nat, d: nat :: Edge(deps[i := targets], j, d) <==>
      if j == i then d in targets else Edge(deps, j, d)
    ensures forall d: nat :: !Edge(deps, i, d)
  {
    var now := deps[i := targets];
    forall j: nat, d: nat
      ensures Edge(now, j, d) <==> if j == i then d in targets else Edge(deps, j, d)
    {
      assert j < |deps| && j != i ==> now[j] == deps[j];
    }
  }

  lemma {:induction false} InverseAfter(steps: seq<StepDef>, deps: Deps, consumers: seq<seq<nat>>, i: nat,
                                        targets: seq<nat>, after: seq<seq<nat>>)
    requires Inverse(deps, consumers) && i < |deps| && Adds(consumers, after, i, targets)
    requires forall j: nat | i <= j < |deps| :: deps[j] == []
    ensures Inverse(deps[i := targets], after)
  {
    EdgesAfter(deps, i, targets);
    forall t: nat | t < |after|
      ensures Ascending(after[t]) && forall j: nat :: j in after[t] <==> Edge(deps[i := targets], j, t)
    {
      forall k | 0 <= k < |consumers[t]|
        ensures consumers[t][k] < i
      {
        assert consumers[t][k] in consumers[t];
        assert Edge(deps, consumers[t][k], t);
      }
    }
  }

  /** Dependencies on earlier steps alone cannot cycle. */
  lemma {:induction false} EarlierDepsAreAcyclic(deps: Deps)
    requires forall i: nat, d: nat :: Edge(deps, i, d) ==> d < i
    ensures InRange(deps) && Acyclic(deps)
  {
    LayeringIsAcyclic(deps, Identity(|deps|));
  }

  lemma {:induction false} BuiltDescribes(steps: seq<StepDef>, deps: Deps, consumers: seq<seq<nat>>)
    requires Built(steps, |steps|, deps, consumers)
    ensures forall waves | exists level :: IsTight(deps, level) && ListsLevels(waves, level) ::
      Describes(DagPlan(waves, deps, consumers), steps)
  {
  }

  method BuildPlan(steps: seq<StepDef>) returns (r: Result<DagPlan, DagError>)
    ensures r.Ok? <==> Plannable(steps)
    ensures r.Ok? ==> Describes(r.value, steps)
    ensures r.Err? ==> Truthful(r.error, steps)
  {
    hide StepDeps, ContainsUnrootedTemplate, Inverse, Acyclic, IsTight, ListsLevels, RefsEarlier;
    var idToIndex :- IndexIds(steps);
    var deps: Deps := seq(|steps|, _ => []);
    var consumers: seq<seq<nat>> := seq(|steps|, _ => []);
    NothingBuilt(steps, deps, consumers);
    for i := 0 to |steps|
      invariant Built(steps, i, deps, consumers)
      invariant forall k: nat | k < i :: !ContainsUnrootedTemplate(steps[k].params) && RefsEarlier(steps, k)
    {
      if ContainsUnrootedTemplate(steps[i].params) {
        return Err(UnrootedStepsReference(steps[i].id));
      }
      BuiltShape(deps, consumers);
      var step :- ResolveStep(steps, idToIndex, i, consumers);
      BuildsOne(steps, i, deps, consumers, step.0, step.1);
      deps := deps[i := step.0];
      consumers := step.1;
    }
    EarlierDepsAreAcyclic(deps);
    var waves := LayerIntoWaves(deps);
    BuiltDescribes(steps, deps, consumers);
    return PlanOf(waves, deps, consumers);
  }

  function PlanOf(waves: Result<seq<seq<nat>>, seq<nat>>, deps: Deps, consumers: seq<seq<nat>>)
    : Result<DagPlan, DagError>
  {
    match waves
    case Err(stuck) => Err(Cycle(stuck))
    case Ok(w) => Ok(DagPlan(w, deps, consumers))
  }

  // ------------------------------------------------------------ linear plans

  predicate IsLinear(plan: DagPlan)
  {
    forall w | 0 <= w < |plan.waves| :: |plan.waves[w]| == 1
  }

  predicate FollowsPrevious(deps: Deps, i: nat)
  {
    i > 0 && Edge(deps, i, i - 1)
  }

  /** Every step after the first depends on its immediate predecessor. */
  predicate Chained(deps: Deps)
  {
    forall i: nat | 0 < i < |deps| :: FollowsPrevious(deps, i)
  }

  function Identity(n: nat): (r: seq<int>)
    ensures |r| == n && forall i | 0 <= i < n :: r[i] == i
  {
    seq(n, i => i)
  }

  lemma {:induction false} LevelAtMostIndex(deps: Deps, level: seq<int>)
    requires IsTight(deps, level) && forall i: nat, d: nat :: Edge(deps, i, d) ==> d < i
    ensures forall i: nat | i < |deps| :: level[i] <= i
  {
    forall i: nat | i < |deps|
      ensures level[i] <= i
    {
      TightIsLowest(deps, level, Identity(|deps|), i);
    }
  }

  lemma {:induction false} ChainLevels(deps: Deps, level: seq<int>, i: nat)
    requires IsTight(deps, level) && forall i: nat, d: nat :: Edge(deps, i, d) ==> d < i
    requires Chained(deps)
    requires i < |deps|
    ensures level[i] == i
  {
    LevelAtMostIndex(deps, level);
    if i > 0 {
      ChainLevels(deps, level, i - 1);
      assert FollowsPrevious(deps, i);
    }
  }

  lemma {:induction false} SameLevelSameStep(level: seq<int>, waves: seq<seq<nat>>, i: nat, j: nat)
    requires ListsLevels(waves, level) && forall w | 0 <= w < |waves| :: |waves[w]| == 1
    requires i < |level| && j < |level| && level[i] == level[j] >= 0
    ensures i == j
  {
    var w := level[i];
    assert IsWave(level, waves[w], w);
    assert i in waves[w] && j in waves[w];
  }

  lemma {:induction false} SoloLevels(deps: Deps, level: seq<int>, waves: seq<seq<nat>>, i: nat)
    requires IsTight(deps, level) && forall i: nat, d: nat :: Edge(deps, i, d) ==> d < i
    requires ListsLevels(waves, level) && forall w | 0 <= w < |waves| :: |waves[w]| == 1
    requires i < |deps|
    ensures level[i] == i
  {
    LevelAtMostIndex(deps, level);
    if level[i] < i {
      SoloLevels(deps, level, waves, level[i]);
      SameLevelSameStep(level, waves, i, level[i]);
    }
  }

  lemma {:induction false} LinearIsChained(deps: Deps, level: seq<int>, waves: seq<seq<nat>>, i: nat)
    requires IsTight(deps, level) && forall i: nat, d: nat :: Edge(deps, i, d) ==> d < i
    requires ListsLevels(waves, level) && forall w | 0 <= w < |waves| :: |waves[w]| == 1
    requires 0 < i < |deps|
    ensures Edge(deps, i, i - 1)
  {
    hide Edge, ListsLevels;
    SoloLevels(deps, level, waves, i);
    assert DependsAt(deps, level, i, level[i] - 1);
    var d: nat :| Edge(deps, i, d) && d < |level| && level[d] == i - 1;
    SoloLevels(deps, level, waves, d);
  }

  lemma {:induction false} TightShape(deps: Deps, level: seq<int>)
    requires IsTight(deps, level)
    ensures |level| == |deps|
  {
  }

  lemma {:induction false} ChainWave(deps: Deps, level: seq<int>, wave: seq<nat>, w: nat)
    requires IsTight(deps, level) && forall i: nat, d: nat :: Edge(deps, i, d) ==> d < i
    requires Chained(deps) && |level| == |deps| && IsWave(level, wave, w)
    ensures |wave| == 1
  {
    hide Edge, IsTight;
    forall k | 0 <= k < |wave|
      ensures wave[k] == w
    {
      assert wave[k] in wave;
      ChainLevels(deps, level, wave[k]);
    }
    FirstTwo(wave);
  }

  lemma {:induction false} FirstTwo(wave: seq<nat>)
    requires Ascending(wave)
    ensures |wave| >= 2 ==> wave[0] < wave[1]
  {
  }

  /** One step at a time exactly when every step after the first depends on its immediate predecessor. */
  lemma {:induction false} LinearExactlyWhenChained(plan: DagPlan, steps: seq<StepDef>)
    requires Describes(plan, steps)
    ensures IsLinear(plan) <==> Chained(plan.deps)
  {
    hide Edge, Resolves, Inverse, IsTight, IsWave;
    var deps, waves := plan.deps, plan.waves;
    var level :| IsTight(deps, level) && ListsLevels(waves, level);
    if IsLinear(plan) {
      forall i: nat | 0 < i < |deps|
        ensures FollowsPrevious(deps, i)
      {
        LinearIsChained(deps, level, waves, i);
      }
    }
    if Chained(deps) {
      assert |level| == |deps| by { TightShape(deps, level); }
      forall w | 0 <= w < |waves|
        ensures |waves[w]| == 1
      {
        ChainWave(deps, level, waves[w], w);
      }
    }
  }
}

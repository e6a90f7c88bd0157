/** The cumulative budget for step results. */
module Budget {
  import opened Identity
  import opened Json
  import opened Machine
  import opened Wrappers

  /** The charge for one node, and for one field of an object. */
  const NODE_OVERHEAD := 16

  function ApproxValueBytes(v: Json): (size: nat)
    ensures size >= NODE_OVERHEAD
  {
    match v
    case JString(s) => NODE_OVERHEAD + ByteLen(s)
    case JArray(items) => NODE_OVERHEAD + ItemsBytes(items)
    case JObject(fields) => NODE_OVERHEAD + FieldsBytes(fields)
    case _ => NODE_OVERHEAD
  }

  function ItemsBytes(items: seq<Json>): nat
  {
    if items == [] then 0 else ApproxValueBytes(items[0]) + ItemsBytes(items[1..])
  }

  function FieldsBytes(fields: seq<(string, Json)>): nat
  {
    if fields == [] then 0
    else
      var f := fields[0];
      assert f.1 < f;
      NODE_OVERHEAD + ByteLen(f.0) + ApproxValueBytes(f.1) + FieldsBytes(fields[1..])
  }

  // ------------------------------------------------------------ what a value is charged

  /** The value and all values inside it. */
  function Nodes(v: Json): seq<Json>
  {
    [v] + match v
          case JArray(items) => NodesOfEach(items)
          case JObject(fields) => NodesOfFields(fields)
          case _ => []
  }

  function NodesOfEach(items: seq<Json>): seq<Json>
  {
    if items == [] then [] else Nodes(items[0]) + NodesOfEach(items[1..])
  }

  function NodesOfFields(fields: seq<(string, Json)>): seq<Json>
  {
    if fields == [] then []
    else
      var f := fields[0];
      assert f.1 < f;
      Nodes(f.1) + NodesOfFields(fields[1..])
  }

  /** The keys of all objects among the values. */
  function KeysAmong(nodes: seq<Json>): seq<string>
  {
    if nodes == [] then []
    else (if nodes[0].JObject? then Names(nodes[0].fields) else []) + KeysAmong(nodes[1..])
  }

  function Names(fields: seq<(string, Json)>): seq<string>
  {
    seq(|fields|, i requires 0 <= i < |fields| => fields[i].0)
  }

  /** All strings among the values. */
  function StringsAmong(nodes: seq<Json>): seq<string>
  {
    if nodes == [] then []
    else (if nodes[0].JString? then [nodes[0].s] else []) + StringsAmong(nodes[1..])
  }

  function BytesOfAll(texts: seq<string>): nat
  {
    if texts == [] then 0 else ByteLen(texts[0]) + BytesOfAll(texts[1..])
  }

  lemma {:induction false} KeysConcat(a: seq<Json>, b: seq<Json>)
    ensures KeysAmong(a + b) == KeysAmong(a) + KeysAmong(b)
  {
    hide Names;
    if a == [] {
      assert a + b == b;
    } else {
      assert (a + b)[0] == a[0] && (a + b)[1..] == a[1..] + b;
      KeysConcat(a[1..], b);
    }
  }

  lemma {:induction false} StringsConcat(a: seq<Json>, b: seq<Json>)
    ensures StringsAmong(a + b) == StringsAmong(a) + StringsAmong(b)
  {
    if a == [] {
      assert a + b == b;
    } else {
      assert (a + b)[0] == a[0] && (a + b)[1..] == a[1..] + b;
      StringsConcat(a[1..], b);
    }
  }

  lemma {:induction false} BytesConcat(a: seq<string>, b: seq<string>)
    ensures BytesOfAll(a + b) == BytesOfAll(a) + BytesOfAll(b)
  {
    if a == [] {
      assert a + b == b;
    } else {
      assert (a + b)[1..] == a[1..] + b;
      BytesConcat(a[1..], b);
    }
  }

  /** Sixteen for each value and each key, and the bytes of all strings and keys. */
  function Weight(nodes: seq<Json>): nat
  {
    16 * (|nodes| + |KeysAmong(nodes)|) + BytesOfAll(StringsAmong(nodes)) + BytesOfAll(KeysAmong(nodes))
  }

  lemma {:induction false} WeightConcat(a: seq<Json>, b: seq<Json>)
    ensures Weight(a + b) == Weight(a) + Weight(b)
  {
    KeysConcat(a, b);
    StringsConcat(a, b);
    BytesConcat(KeysAmong(a), KeysAmong(b));
    BytesConcat(StringsAmong(a), StringsAmong(b));
  }

  lemma {:induction false} WeightOfFirst(v: Json, inner: seq<Json>)
    ensures Weight([v] + inner) == Weight(inner) + 16
      + match v
        case JString(s) => ByteLen(s)
        case JObject(fields) => 16 * |fields| + BytesOfAll(Names(fields))
        case _ => 0
  {
    WeightConcat([v], inner);
    assert [v][1..] == [];
    assert KeysAmong([v]) == if v.JObject? then Names(v.fields) else [];
    assert StringsAmong([v]) == if v.JString? then [v.s] else [];
    if v.JString? {
      assert [v.s][1..] == [];
      assert BytesOfAll([v.s]) == ByteLen(v.s) + BytesOfAll([v.s][1..]);
    }
  }

  /** The estimate is that weight, whatever the nesting. */
  lemma {:induction false} ChargedByWeight(v: Json)
    ensures ApproxValueBytes(v) == Weight(Nodes(v))
    decreases v
  {
    hide Weight, ByteLen, Names, BytesOfAll;
    assert [v] + [] == [v];
    match v
    case JArray(items) =>
      WeightOfFirst(v, NodesOfEach(items));
      ItemsByWeight(items);
    case JObject(fields) =>
      WeightOfFirst(v, NodesOfFields(fields));
      FieldsByWeight(fields);
    case _ =>
      WeightOfFirst(v, []);
      WeightOfNothing();
  }

  lemma {:induction false} WeightOfNothing()
    ensures Weight([]) == 0
  {
  }

  lemma {:induction false} ItemsByWeight(items: seq<Json>)
    ensures ItemsBytes(items) == Weight(NodesOfEach(items))
    decreases items
  {
    hide Weight, ApproxValueBytes, Nodes;
    if items == [] {
      WeightOfNothing();
    } else {
      ChargedByWeight(items[0]);
      ItemsByWeight(items[1..]);
      WeightConcat(Nodes(items[0]), NodesOfEach(items[1..]));
    }
  }

  lemma {:induction false} FieldsByWeight(fields: seq<(string, Json)>)
    ensures FieldsBytes(fields) == Weight(NodesOfFields(fields)) + 16 * |fields| + BytesOfAll(Names(fields))
    decreases fields
  {
    hide Weight, ApproxValueBytes, Nodes, ByteLen;
    if fields == [] {
      WeightOfNothing();
    } else {
      var f := fields[0];
      assert f.1 < f;
      ChargedByWeight(f.1);
      FieldsByWeight(fields[1..]);
      WeightConcat(Nodes(f.1), NodesOfFields(fields[1..]));
      assert Names(fields)[1..] == Names(fields[1..]);
    }
  }

  type Results = map<string, Json>

  datatype Violation = StepResultsLimit(limitBytes: nat, attemptedBytes: nat)

  /** What the budget keeps of an execution. */
  datatype Ledger = Ledger(results: Results, bytes: nat, firstStepId: Option<string>, violation: Option<Violation>)

  /** What a stored value under this id is charged; nothing when there is none. */
  function Charged(results: Results, id: string): nat
  {
    if id in results then ApproxValueBytes(results[id]) else 0
  }

  /** The running total a store would lead to. */
  function Projected(l: Ledger, id: string, value: Json): nat
  {
    SaturatingAdd(SaturatingSub(l.bytes, Charged(l.results, id)), ApproxValueBytes(value))
  }

  function Stored(limit: nat, l: Ledger, id: string, value: Json): Ledger
  {
    var first := if l.firstStepId.None? then Some(id) else l.firstStepId;
    var projected := Projected(l, id, value);
    if projected > limit then l.(firstStepId := first, violation := Some(StepResultsLimit(limit, projected)))
    else Ledger(l.results[id := value], projected, first, l.violation)
  }

  /** A loop's next iteration drops what its body stored before. */
  function Cleared(l: Ledger, ids: seq<string>): Ledger
  {
    l.(results := l.results - Ids(ids))
  }

  function Ids(ids: seq<string>): set<string>
  {
    set id | id in ids
  }

  class ExecutionState {
    const limit: nat
    var stepResults: Results
    var stepResultsBytes: nat
    var firstStepId: Option<string>
    var resourceViolation: Option<Violation>

    function View(): Ledger
      reads this
    {
      Ledger(stepResults, stepResultsBytes, firstStepId, resourceViolation)
    }

    constructor (limit: nat)
      ensures this.limit == limit && View() == Ledger(map[], 0, None, None)
    {
      this.limit := limit;
      stepResults, stepResultsBytes, firstStepId, resourceViolation := map[], 0, None, None;
    }

    method StoreStepResult(stepId: string, value: Json)
      modifies this
      ensures View() == Stored(limit, old(View()), stepId, value)
    {
      if firstStepId.None? {
        firstStepId := Some(stepId);
      }
      var incoming := ApproxValueBytes(value);
      var replaced := Charged(stepResults, stepId);
      var projected := SaturatingAdd(SaturatingSub(stepResultsBytes, replaced), incoming);
      if projected > limit {
        resourceViolation := Some(StepResultsLimit(limit, projected));
        return;
      }
      stepResultsBytes := projected;
      stepResults := stepResults[stepId := value];
    }

    method ClearInnerResults(innerIds: seq<string>)
      modifies this`stepResults
      ensures View() == Cleared(old(View()), innerIds)
    {
      for k := 0 to |innerIds|
        invariant stepResults == old(stepResults) - Ids(innerIds[..k])
      {
        assert Ids(innerIds[..k + 1]) == Ids(innerIds[..k]) + {innerIds[k]};
        stepResults := stepResults - {innerIds[k]};
      }
      assert innerIds[..|innerIds|] == innerIds;
    }
  }

  // ------------------------------------------------------------ the sum of what is stored

  ghost function Sum(results: Results): nat
    decreases |results|
  {
    if results == map[] then 0
    else
      var id :| id in results;
      ApproxValueBytes(results[id]) + Sum(results - {id})
  }

  lemma {:induction false} SumWithout(results: Results, id: string)
    requires id in results
    ensures Sum(results) == ApproxValueBytes(results[id]) + Sum(results - {id})
    decreases |results|
  {
    var first :| first in results && Sum(results) == ApproxValueBytes(results[first]) + Sum(results - {first});
    if first != id {
      SumWithout(results - {first}, id);
      SumWithout(results - {id}, first);
      assert results - {first} - {id} == results - {id} - {first};
    }
  }

  lemma {:induction false} SumWith(results: Results, id: string, value: Json)
    ensures Sum(results[id := value]) + Charged(results, id) == Sum(results) + ApproxValueBytes(value)
    ensures Charged(results, id) <= Sum(results)
  {
    var after := results[id := value];
    SumWithout(after, id);
    assert after - {id} == results - {id};
    if id in results {
      SumWithout(results, id);
    } else {
      assert results - {id} == results;
    }
  }

  lemma {:induction false} SumOfFewer(results: Results, ids: set<string>)
    ensures Sum(results - ids) <= Sum(results)
    decreases |ids|
  {
    if ids == {} {
      assert results - ids == results;
    } else {
      var id :| id in ids;
      SumOfFewer(results, ids - {id});
      var fewer := results - (ids - {id});
      if id in fewer {
        SumWithout(fewer, id);
        assert fewer - {id} == results - ids;
      } else {
        assert fewer == results - ids;
      }
    }
  }

  // ------------------------------------------------------------ over whole executions

  datatype Op = Store(id: string, value: Json) | Clear(ids: seq<string>)

  function Start(): Ledger
  {
    Ledger(map[], 0, None, None)
  }

  function Apply(limit: nat, l: Ledger, op: Op): Ledger
  {
    match op
    case Store(id, value) => Stored(limit, l, id, value)
    case Clear(ids) => Cleared(l, ids)
  }

  function Run(limit: nat, ops: seq<Op>): Ledger
  {
    if ops == [] then Start() else Apply(limit, Run(limit, ops[..|ops| - 1]), ops[|ops| - 1])
  }

  /** The size of everything the loops' clears have removed. */
  ghost function Forgotten(limit: nat, ops: seq<Op>): nat
  {
    if ops == [] then 0
    else
      var l, last := Run(limit, ops[..|ops| - 1]), ops[|ops| - 1];
      SumOfFewer(l.results, if last.Clear? then Ids(last.ids) else {});
      Forgotten(limit, ops[..|ops| - 1]) + if last.Clear? then Sum(l.results) - Sum(Cleared(l, last.ids).results) else 0
  }

  /** No count passes the largest word. */
  function Capped(n: nat): nat
  {
    if n <= 0xFFFF_FFFF_FFFF_FFFF then n else 0xFFFF_FFFF_FFFF_FFFF
  }

  /** One store: refused exactly when the exact total would pass the limit, and then nothing stored changes. */
  lemma {:induction false} StoreIsExact(limit: nat, l: Ledger, id: string, value: Json)
    requires limit < USIZE_MAX && Sum(l.results) <= l.bytes <= limit
    ensures var t := Stored(limit, l, id, value);
      var exact := l.bytes - Charged(l.results, id) + ApproxValueBytes(value);
      && (t.firstStepId == if l.firstStepId.None? then Some(id) else l.firstStepId)
      && (exact <= limit ==> t.results == l.results[id := value] && t.bytes == exact && t.violation == l.violation)
      && (exact > limit ==> t.results == l.results && t.bytes == l.bytes)
      && (exact > limit ==> t.violation == Some(StepResultsLimit(limit, Capped(exact))))
      && t.bytes - l.bytes == Sum(t.results) - Sum(l.results)
  {
    SumWith(l.results, id, value);
  }

  /** The total is what is stored plus what was cleared, and never passes the limit: so neither does what is stored. */
  lemma {:induction false} Balanced(limit: nat, ops: seq<Op>)
    requires limit < USIZE_MAX
    ensures Run(limit, ops).bytes == Sum(Run(limit, ops).results) + Forgotten(limit, ops)
    ensures Run(limit, ops).bytes <= limit
  {
    hide Stored;
    if ops != [] {
      var fewer, last := ops[..|ops| - 1], ops[|ops| - 1];
      Balanced(limit, fewer);
      if last.Store? {
        StoreIsExact(limit, Run(limit, fewer), last.id, last.value);
      }
    }
  }

  /** No id of the clear has a stored value. */
  predicate ClearsNothing(l: Ledger, ids: seq<string>)
  {
    forall id | id in ids :: id !in l.results
  }

  /** The total is the size of what is stored exactly when no clear so far has removed anything. */
  lemma {:induction false} ExactUntilSomethingIsCleared(limit: nat, ops: seq<Op>)
    requires limit < USIZE_MAX
    ensures Run(limit, ops).bytes == Sum(Run(limit, ops).results) <==>
      forall i | 0 <= i < |ops| && ops[i].Clear? :: ClearsNothing(Run(limit, ops[..i]), ops[i].ids)
  {
    Balanced(limit, ops);
    ForgottenNothing(limit, ops);
  }

  lemma {:induction false} ForgottenNothing(limit: nat, ops: seq<Op>)
    ensures Forgotten(limit, ops) == 0 <==>
      forall i | 0 <= i < |ops| && ops[i].Clear? :: ClearsNothing(Run(limit, ops[..i]), ops[i].ids)
  {
    hide Apply, Sum, ClearsNothing;
    if ops != [] {
      var n := |ops| - 1;
      var fewer, last := ops[..n], ops[n];
      ForgottenNothing(limit, fewer);
      assert forall i | 0 <= i < n :: fewer[i] == ops[i] && fewer[..i] == ops[..i];
      if last.Clear? {
        SumIsLess(Run(limit, fewer), last.ids);
      }
    }
  }

  lemma {:induction false} SumIsLess(l: Ledger, ids: seq<string>)
    ensures Sum(Cleared(l, ids).results) <= Sum(l.results)
    ensures Sum(Cleared(l, ids).results) == Sum(l.results) <==> ClearsNothing(l, ids)
  {
    SumOfFewer(l.results, Ids(ids));
    if ClearsNothing(l, ids) {
      assert l.results - Ids(ids) == l.results;
    } else {
      var id :| id in ids && id in l.results;
      SumWithout(l.results, id);
      SumOfFewer(l.results - {id}, Ids(ids));
      assert l.results - {id} - Ids(ids) == l.results - Ids(ids);
    }
  }

  /** With no clears in between, the total is exactly the size of what is stored. */
  lemma {:induction false} StoresAloneAreExact(limit: nat, ops: seq<Op>)
    requires limit < USIZE_MAX && forall i | 0 <= i < |ops| :: ops[i].Store?
    ensures Run(limit, ops).bytes == Sum(Run(limit, ops).results) <= limit
  {
    Balanced(limit, ops);
    ForgottenNothing(limit, ops);
  }

  /** A loop body that stores one value and has it cleared, `n` times over. */
  function Iterations(id: string, value: Json, n: nat): seq<Op>
  {
    if n == 0 then [] else Iterations(id, value, n - 1) + [Store(id, value)] + [Clear([id])]
  }

  /** Cleared results stay charged: the loop is charged for every iteration while nothing is stored at all. */
  lemma {:induction false} ClearedResultsStayCharged(limit: nat, id: string, value: Json, n: nat)
    requires limit < USIZE_MAX && n * ApproxValueBytes(value) <= limit
    ensures Run(limit, Iterations(id, value, n)).results == map[]
    ensures Run(limit, Iterations(id, value, n)).bytes == n * ApproxValueBytes(value)
  {
    TimesIsProduct(n, ApproxValueBytes(value));
    ChargedEachTime(limit, id, value, n);
  }

  function Times(n: nat, size: nat): nat
  {
    if n == 0 then 0 else Times(n - 1, size) + size
  }

  lemma {:induction false} TimesIsProduct(n: nat, size: nat)
    ensures Times(n, size) == n * size
  {
    if n > 0 {
      TimesIsProduct(n - 1, size);
      OneMoreTime(n - 1, size);
    }
  }

  lemma {:induction false} ChargedEachTime(limit: nat, id: string, value: Json, n: nat)
    requires limit < USIZE_MAX && Times(n, ApproxValueBytes(value)) <= limit
    ensures Run(limit, Iterations(id, value, n)).results == map[]
    ensures Run(limit, Iterations(id, value, n)).bytes == Times(n, ApproxValueBytes(value))
  {
    hide Apply, ApproxValueBytes;
    if n > 0 {
      ChargedEachTime(limit, id, value, n - 1);
      var before := Iterations(id, value, n - 1);
      var stored := before + [Store(id, value)];
      assert stored[..|before|] == before;
      assert Iterations(id, value, n)[..|stored|] == stored;
      StoreThenClear(limit, Run(limit, before), id, value);
    }
  }

  lemma {:induction false} OneMoreTime(n: nat, size: nat)
    ensures (n + 1) * size == n * size + size >= n * size
  {
  }

  lemma {:induction false} StoreThenClear(limit: nat, l: Ledger, id: string, value: Json)
    requires limit < USIZE_MAX && l.results == map[] && l.bytes + ApproxValueBytes(value) <= limit
    ensures var t := Apply(limit, Apply(limit, l, Store(id, value)), Clear([id]));
      t.results == map[] && t.bytes == l.bytes + ApproxValueBytes(value)
  {
    assert Ids([id]) == {id};
  }

  /** So the first iteration past the limit is refused, however small the one value it would hold. */
  lemma {:induction false} LoopsExhaustTheBudget(limit: nat, id: string, value: Json, n: nat)
    requires limit < USIZE_MAX && n * ApproxValueBytes(value) <= limit < (n + 1) * ApproxValueBytes(value)
    ensures Run(limit, Iterations(id, value, n) + [Store(id, value)]).violation.Some?
    ensures Run(limit, Iterations(id, value, n) + [Store(id, value)]).results == map[]
  {
    ClearedResultsStayCharged(limit, id, value, n);
    var before := Iterations(id, value, n);
    assert (before + [Store(id, value)])[..|before|] == before;
    OneMoreTime(n, ApproxValueBytes(value));
    assert Sum(map[]) == 0;
    StoreIsExact(limit, Run(limit, before), id, value);
  }
}

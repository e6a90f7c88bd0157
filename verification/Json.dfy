/** JSON values as the kernel handles them. Object fields stand in iteration order. */
module Json {
  import opened Wrappers

  /** Integers and floats are distinct values even where they denote the same number. */
  datatype Num = Int(i: int) | Float(r: real) {
    function AsReal(): real {
      if Int? then i as real else r
    }
  }

  datatype Json =
    | JNull
    | JBool(b: bool)
    | JNumber(n: Num)
    | JString(s: string)
    | JArray(items: seq<Json>)
    | JObject(fields: seq<(string, Json)>)

  function Lookup(fields: seq<(string, Json)>, key: string): (r: Option<Json>)
    ensures r.Some? ==> exists i :: 0 <= i < |fields| && fields[i] == (key, r.value)
    ensures r.None? ==> forall i | 0 <= i < |fields| :: fields[i].0 != key
  {
    if fields == [] then None
    else if fields[0].0 == key then assert fields[0] == (key, fields[0].1); Some(fields[0].1)
    else Lookup(fields[1..], key)
  }

  /** Equality of JSON values: objects compare by key whatever their order, an integer never equals a float. */
  predicate SameJson(a: Json, b: Json)
    decreases a
  {
    match a
    case JArray(items) =>
      b.JArray? && |items| == |b.items| && forall i | 0 <= i < |items| :: SameJson(items[i], b.items[i])
    case JObject(fields) =>
      b.JObject? && |fields| == |b.fields| &&
      forall i | 0 <= i < |fields| ::
        Lookup(b.fields, fields[i].0).Some? && SameJson(fields[i].1, Lookup(b.fields, fields[i].0).value)
    case _ => a == b
  }

  /** No object inside holds a key twice, as in every parsed document. */
  predicate KeysDistinct(v: Json)
    decreases v
  {
    match v
    case JArray(items) => forall i | 0 <= i < |items| :: KeysDistinct(items[i])
    case JObject(fields) =>
      && (forall i, j | 0 <= i < j < |fields| :: fields[i].0 != fields[j].0)
      && forall i | 0 <= i < |fields| :: KeysDistinct(fields[i].1)
    case _ => true
  }

  lemma {:induction false} LookupFinds(fields: seq<(string, Json)>, i: nat)
    requires i < |fields| && forall j | 0 <= j < |fields| && j != i :: fields[j].0 != fields[i].0
    ensures Lookup(fields, fields[i].0) == Some(fields[i].1)
  {
    if i > 0 {
      assert fields[1..][i - 1] == fields[i];
      forall j | 0 <= j < |fields[1..]| && j != i - 1
        ensures fields[1..][j].0 != fields[i].0
      {
        assert fields[1..][j] == fields[j + 1];
      }
      LookupFinds(fields[1..], i - 1);
    }
  }

  lemma {:induction false} SameAsItself(v: Json)
    requires KeysDistinct(v)
    ensures SameJson(v, v)
    decreases v
  {
    match v
    case JArray(items) =>
      forall i | 0 <= i < |items| ensures SameJson(items[i], items[i]) {
        SameAsItself(items[i]);
      }
    case JObject(fields) =>
      forall i | 0 <= i < |fields|
        ensures Lookup(fields, fields[i].0).Some? && SameJson(fields[i].1, Lookup(fields, fields[i].0).value)
      {
        LookupFinds(fields, i);
        SameAsItself(fields[i].1);
      }
    case _ =>
  }

  /** Two objects with the same fields are the same, in whatever order they hold them. */
  lemma {:induction false} FieldOrderIsIrrelevant(a: seq<(string, Json)>, b: seq<(string, Json)>)
    requires KeysDistinct(JObject(a)) && KeysDistinct(JObject(b)) && |a| == |b| && forall f | f in a :: f in b
    ensures SameJson(JObject(a), JObject(b))
  {
    forall i | 0 <= i < |a|
      ensures Lookup(b, a[i].0).Some? && SameJson(a[i].1, Lookup(b, a[i].0).value)
    {
      assert a[i] in b;
      var j: nat :| j < |b| && b[j] == a[i];
      LookupFinds(b, j);
      SameAsItself(a[i].1);
    }
  }

  /** The member of an object under a key; nothing for any other value. */
  function Get(v: Json, key: string): (r: Option<Json>)
    ensures r.Some? ==> r.value < v
  {
    if v.JObject? then Lookup(v.fields, key) else None
  }
}

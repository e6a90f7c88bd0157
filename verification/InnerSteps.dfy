/** Which steps a step defines inside itself and which it refers to, read off the JSON of its parameters alone. */
module InnerSteps {
  import opened Json
  import opened Plan
  import opened Wrappers

  import Scanner

  // ------------------------------------------------------------ steps defined inside

  /** `ifs[i]`; or to a step: `branches[i][j]`, or `[j]` under one of the keys of a body. */
  datatype Turn = IfsAt(i: nat) | BranchAt(i: nat, j: nat) | BodyAt(key: string, j: nat)

  /** The turns lead from the parameters to a step of that id; below a step they go on in its `params`. */
  ghost predicate Defines(params: Json, path: seq<Turn>, id: string)
    decreases |path|, 1
  {
    path != [] &&
    match path[0]
    case IfsAt(i) => exists branch :: InArray(params, "ifs", i, branch) && Defines(branch, path[1..], id)
    case BranchAt(i, j) =>
      exists branch :: InArray(params, "branches", i, branch) && branch.JArray? && j < |branch.items|
                       && IsStep(branch.items[j], path[1..], id)
    case BodyAt(key, j) =>
      key in ["steps", "then", "try", "catch", "finally"] &&
      exists step :: InArray(params, key, j, step) && IsStep(step, path[1..], id)
  }

  ghost predicate IsStep(step: Json, path: seq<Turn>, id: string)
    decreases |path|, 2
  {
    if path == [] then Get(step, "id") == Some(JString(id))
    else Get(step, "params").Some? && Defines(Get(step, "params").value, path, id)
  }

  /** The i-th item of the array under that key. */
  predicate InArray(v: Json, key: string, i: nat, item: Json)
  {
    match Get(v, key)
    case Some(JArray(items)) => i < |items| && items[i] == item
    case _ => false
  }

  ghost predicate DefinedInside(params: Json, id: string)
  {
    exists path :: Defines(params, path, id)
  }

  /** What the turns lead to is collected. */
  lemma {:induction false} PathIsCollected(params: Json, path: seq<Turn>, id: string)
    requires Defines(params, path, id)
    ensures id in InnerStepIds(params)
    decreases |path|, 1
  {
    hide InnerIdsOfEach, ArrayIdsOfEach, StepIdsOfEach, BodyIds, Get;
    match path[0]
    case IfsAt(i) =>
      var branch :| InArray(params, "ifs", i, branch) && Defines(branch, path[1..], id);
      PathIsCollected(branch, path[1..], id);
      FromIfs(Get(params, "ifs").value.items, i, id);
    case BranchAt(i, j) =>
      var branch :| InArray(params, "branches", i, branch) && branch.JArray? && j < |branch.items|
        && IsStep(branch.items[j], path[1..], id);
      StepIsCollected(branch.items, j, path[1..], id);
      FromBranches(Get(params, "branches").value.items, i, id);
    case BodyAt(key, j) =>
      var step :| InArray(params, key, j, step) && IsStep(step, path[1..], id);
      StepIsCollected(Get(params, key).value.items, j, path[1..], id);
      FromBodies(params, INNER_BODY_KEYS, key, id);
  }

  lemma {:induction false} StepIsCollected(items: seq<Json>, j: nat, path: seq<Turn>, id: string)
    requires j < |items| && IsStep(items[j], path, id)
    ensures id in StepIdsOfEach(items)
    decreases |path|, 2, |items|
  {
    hide InnerStepIds, Get;
    if j > 0 {
      StepIsCollected(items[1..], j - 1, path, id);
    } else if path != [] {
      PathIsCollected(Get(items[0], "params").value, path, id);
    }
  }

  lemma {:induction false} FromIfs(items: seq<Json>, i: nat, id: string)
    requires i < |items| && id in InnerStepIds(items[i])
    ensures id in InnerIdsOfEach(items)
  {
    hide InnerStepIds;
    if i > 0 {
      FromIfs(items[1..], i - 1, id);
    }
  }

  lemma {:induction false} FromBranches(items: seq<Json>, i: nat, id: string)
    requires i < |items| && id in ArrayIds(items[i])
    ensures id in ArrayIdsOfEach(items)
  {
    hide ArrayIds;
    if i > 0 {
      FromBranches(items[1..], i - 1, id);
    }
  }

  lemma {:induction false} FromBodies(params: Json, keys: seq<string>, key: string, id: string)
    requires key in keys && Get(params, key).Some? && id in ArrayIds(Get(params, key).value)
    ensures id in BodyIds(params, keys)
  {
    hide ArrayIds, Get;
    if keys[0] != key {
      FromBodies(params, keys[1..], key, id);
    }
  }

  /** What is collected has turns that lead to it. */
  lemma {:induction false} CollectedHasPath(params: Json, id: string) returns (path: seq<Turn>)
    requires id in InnerStepIds(params)
    ensures Defines(params, path, id)
    decreases params, 2
  {
    hide Get, InnerIdsOfEach, ArrayIdsOfEach, BodyIds, IsStep;
    var ifs, branches := Get(params, "ifs"), Get(params, "branches");
    var i, j, rest, key;
    if ifs.Some? && ifs.value.JArray? && id in InnerIdsOfEach(ifs.value.items) {
      i, rest := InIfs(ifs.value.items, id);
      path := [IfsAt(i)] + rest;
      assert InArray(params, "ifs", i, ifs.value.items[i]);
    } else if branches.Some? && branches.value.JArray? && id in ArrayIdsOfEach(branches.value.items) {
      i, j, rest := InBranches(branches.value.items, id);
      path := [BranchAt(i, j)] + rest;
      assert InArray(params, "branches", i, branches.value.items[i]);
    } else {
      key, j, rest := InBodies(params, INNER_BODY_KEYS, id);
      path := [BodyAt(key, j)] + rest;
      assert InArray(params, key, j, Get(params, key).value.items[j]);
    }
    assert path[1..] == rest;
  }

  lemma {:induction false} InIfs(items: seq<Json>, id: string) returns (i: nat, path: seq<Turn>)
    requires id in InnerIdsOfEach(items)
    ensures i < |items| && Defines(items[i], path, id)
    decreases items
  {
    hide InnerStepIds, Defines;
    if id in InnerStepIds(items[0]) {
      path := CollectedHasPath(items[0], id);
      i := 0;
    } else {
      i, path := InIfs(items[1..], id);
      i := i + 1;
    }
  }

  lemma {:induction false} InBranches(items: seq<Json>, id: string) returns (i: nat, j: nat, path: seq<Turn>)
    requires id in ArrayIdsOfEach(items)
    ensures i < |items| && items[i].JArray? && j < |items[i].items| && IsStep(items[i].items[j], path, id)
    decreases items
  {
    hide IsStep;
    if id in ArrayIds(items[0]) {
      j, path := InSteps(items[0].items, id);
      i := 0;
    } else {
      i, j, path := InBranches(items[1..], id);
      i := i + 1;
    }
  }

  lemma {:induction false} InBodies(params: Json, keys: seq<string>, id: string)
    returns (key: string, j: nat, path: seq<Turn>)
    requires id in BodyIds(params, keys)
    ensures key in keys && Get(params, key).Some? && Get(params, key).value.JArray?
    ensures j < |Get(params, key).value.items| && IsStep(Get(params, key).value.items[j], path, id)
    decreases params, 1, |keys|
  {
    hide IsStep, Lookup;
    if Get(params, keys[0]).Some? && id in ArrayIds(Get(params, keys[0]).value) {
      key := keys[0];
      j, path := InSteps(Get(params, key).value.items, id);
    } else {
      key, j, path := InBodies(params, keys[1..], id);
    }
  }

  lemma {:induction false} InSteps(items: seq<Json>, id: string) returns (j: nat, path: seq<Turn>)
    requires id in StepIdsOfEach(items)
    ensures j < |items| && IsStep(items[j], path, id)
    decreases items
  {
    hide InnerStepIds, Defines, Lookup;
    if Get(items[0], "id") == Some(JString(id)) {
      return 0, [];
    } else if Get(items[0], "params").Some? && id in InnerStepIds(Get(items[0], "params").value) {
      path := CollectedHasPath(Get(items[0], "params").value, id);
      j := 0;
      NotEmpty(Get(items[0], "params").value, path, id);
    } else {
      j, path := InSteps(items[1..], id);
      j := j + 1;
    }
  }

  lemma {:induction false} NotEmpty(params: Json, path: seq<Turn>, id: string)
    requires Defines(params, path, id)
    ensures path != []
  {
  }

  /** The collected ids are exactly those that some turns lead to. */
  lemma {:induction false} InnerIdsAre(params: Json, id: string)
    ensures id in InnerStepIds(params) <==> DefinedInside(params, id)
  {
    hide Defines;
    if id in InnerStepIds(params) {
      var path := CollectedHasPath(params, id);
    }
    if path :| Defines(params, path, id) {
      PathIsCollected(params, path, id);
    }
  }

  // ------------------------------------------------------------ steps referred to

  /** The string that stands at the end of these positions, through arrays and the values of objects. */
  ghost predicate StringAt(v: Json, at: seq<nat>, s: string)
    decreases |at|
  {
    if at == [] then v == JString(s)
    else
      match v
      case JArray(items) => at[0] < |items| && StringAt(items[at[0]], at[1..], s)
      case JObject(fields) => at[0] < |fields| && StringAt(fields[at[0]].1, at[1..], s)
      case _ => false
  }

  /** The string is written somewhere in the value, not as a key. */
  ghost predicate Written(v: Json, s: string)
  {
    exists at :: StringAt(v, at, s)
  }

  /** A reference to that step is written in some string of the value. */
  ghost predicate RefersTo(v: Json, id: string)
  {
    exists s :: Written(v, s) && id in Scanner.Scan(s)
  }

  lemma {:induction false} StringIsWalked(v: Json, at: seq<nat>, s: string)
    requires StringAt(v, at, s)
    ensures s in StringsIn(v)
    decreases |at|
  {
    if at != [] {
      match v
      case JArray(items) =>
        StringIsWalked(items[at[0]], at[1..], s);
        FromItem(items, at[0], s);
      case JObject(fields) =>
        StringIsWalked(fields[at[0]].1, at[1..], s);
        FromField(fields, at[0], s);
    }
  }

  lemma {:induction false} FromItem(items: seq<Json>, i: nat, s: string)
    requires i < |items| && s in StringsIn(items[i])
    ensures s in StringsInItems(items)
  {
    hide StringsIn;
    if i > 0 {
      FromItem(items[1..], i - 1, s);
    }
  }

  lemma {:induction false} FromField(fields: seq<(string, Json)>, i: nat, s: string)
    requires i < |fields| && s in StringsIn(fields[i].1)
    ensures s in StringsInFields(fields)
  {
    hide StringsIn;
    if i > 0 {
      FromField(fields[1..], i - 1, s);
    }
  }

  lemma {:induction false} WalkedStands(v: Json, s: string) returns (at: seq<nat>)
    requires s in StringsIn(v)
    ensures StringAt(v, at, s)
    decreases v
  {
    var i, rest;
    match v
    case JString(_) => at := [];
    case JArray(items) =>
      i, rest := InItems(items, s);
      at := [i] + rest;
      assert at[1..] == rest;
    case JObject(fields) =>
      i, rest := InFields(fields, s);
      at := [i] + rest;
      assert at[1..] == rest;
  }

  lemma {:induction false} InItems(items: seq<Json>, s: string) returns (i: nat, at: seq<nat>)
    requires s in StringsInItems(items)
    ensures i < |items| && StringAt(items[i], at, s)
    decreases items
  {
    hide StringsIn, StringAt;
    if s in StringsIn(items[0]) {
      at := WalkedStands(items[0], s);
      i := 0;
    } else {
      i, at := InItems(items[1..], s);
      i := i + 1;
    }
  }

  lemma {:induction false} InFields(fields: seq<(string, Json)>, s: string) returns (i: nat, at: seq<nat>)
    requires s in StringsInFields(fields)
    ensures i < |fields| && StringAt(fields[i].1, at, s)
    decreases fields
  {
    hide StringsIn, StringAt;
    var f := fields[0];
    assert f.1 < f;
    if s in StringsIn(f.1) {
      at := WalkedStands(f.1, s);
      i := 0;
    } else {
      i, at := InFields(fields[1..], s);
      i := i + 1;
    }
  }

  lemma {:induction false} StringsAre(v: Json, s: string)
    ensures s in StringsIn(v) <==> Written(v, s)
  {
    hide StringAt, StringsIn;
    if s in StringsIn(v) {
      var at := WalkedStands(v, s);
    }
    if at :| StringAt(v, at, s) {
      StringIsWalked(v, at, s);
    }
  }

  lemma {:induction false} ScannedAre(texts: seq<string>, id: string)
    ensures id in ScanAll(texts) <==> exists s :: s in texts && id in Scanner.Scan(s)
  {
    hide Scanner.Scan;
    if texts != [] {
      ScannedAre(texts[1..], id);
      assert texts == [texts[0]] + texts[1..];
      if s :| s in texts && id in Scanner.Scan(s) {
        assert s == texts[0] || s in texts[1..];
      }
      if s :| s in texts[1..] && id in Scanner.Scan(s) {
        assert s in texts;
      }
      assert texts[0] in texts;
    }
  }

  lemma {:induction false} ReferencesAre(v: Json, id: string)
    ensures id in ScanAll(StringsIn(v)) <==> RefersTo(v, id)
  {
    hide Scanner.Scan, Written, StringsIn;
    ScannedAre(StringsIn(v), id);
    forall s
      ensures s in StringsIn(v) <==> Written(v, s)
    {
      StringsAre(v, s);
    }
  }

  // ------------------------------------------------------------ what a step depends on

  /** Declared, or referred to in some string of the parameters and not defined in any body of the step itself. */
  lemma {:induction false} DependenciesAre(step: StepDef, id: string)
    ensures id in StepDeps(step) <==>
      id in step.dependsOn || (RefersTo(step.params, id) && !DefinedInside(step.params, id))
  {
    hide StepDeps, RefersTo, DefinedInside, InnerStepIds;
    StepDepsAre(step, id);
    ReferencesAre(step.params, id);
    InnerIdsAre(step.params, id);
  }

  /** A step that declares nothing and refers only to steps of its own bodies depends on nothing. */
  lemma {:induction false} OwnBodiesAddNothing(step: StepDef)
    requires step.dependsOn == []
    requires forall id | RefersTo(step.params, id) :: DefinedInside(step.params, id)
    ensures StepDeps(step) == []
  {
    hide StepDeps, RefersTo, DefinedInside;
    if StepDeps(step) != [] {
      DependenciesAre(step, StepDeps(step)[0]);
    }
  }

  /** Alone it is planned, unless one of its strings holds the template without its dollar sign. */
  lemma {:induction false} PlannedAlone(step: StepDef)
    requires step.dependsOn == []
    requires forall id | RefersTo(step.params, id) :: DefinedInside(step.params, id)
    ensures Plannable([step]) <==> !exists s :: Written(step.params, s) && IsUnrooted(s)
  {
    hide StepDeps, RefersTo, DefinedInside, IsUnrooted, HasUnrooted, StringsIn, Written;
    OwnBodiesAddNothing(step);
    forall s
      ensures s in StringsIn(step.params) <==> Written(step.params, s)
      ensures HasUnrooted(s) <==> IsUnrooted(s)
    {
      StringsAre(step.params, s);
      UnrootedIs(s);
    }
    assert [step][0] == step;
  }

  // ------------------------------------------------------------ the template without its dollar sign

  /** Somewhere two opening braces, any white space, and `steps.` */
  ghost predicate IsUnrooted(s: string)
  {
    exists i: nat, j: nat :: UnrootedAt(s, i, j)
  }

  predicate UnrootedAt(s: string, i: nat, j: nat)
  {
    && i + 2 <= j <= |s| && s[i..i + 2] == "{{" && "steps." <= s[j..]
    && forall k | i + 2 <= k < j :: IsWhiteSpace(s[k])
  }

  /** Unicode's white space, code point by code point. */
  predicate IsWhiteSpace(c: char)
  {
    c as int in [
      9, 10, 11, 12, 13, 32, 133, 160, 5760, 8192, 8193, 8194, 8195, 8196, 8197, 8198, 8199, 8200, 8201, 8202, 8232,
      8233, 8239, 8287, 12288]
  }

  lemma {:induction false} PatternSpaceIs(c: char)
    ensures IsPatternSpace(c) <==> IsWhiteSpace(c)
  {
  }

  /** After `j` white spaces stands `steps.` */
  predicate SkipsTo(s: string, j: nat)
  {
    j <= |s| && "steps." <= s[j..] && forall k | 0 <= k < j :: IsWhiteSpace(s[k])
  }

  lemma {:induction false} SkipsOneMore(s: string, j: nat)
    requires s != "" && IsWhiteSpace(s[0])
    ensures SkipsTo(s, j + 1) <==> SkipsTo(s[1..], j)
  {
    hide IsWhiteSpace;
    if j + 1 <= |s| {
      assert s[1..][j..] == s[j + 1..];
      assert forall k | 0 <= k < j :: s[1..][k] == s[k + 1];
      assert forall k | 0 < k < j + 1 :: s[k] == s[1..][k - 1];
    }
  }

  lemma {:induction false} SkippedIs(s: string)
    ensures "steps." <= SkipPatternSpace(s) <==> exists j: nat :: SkipsTo(s, j)
  {
    hide IsPatternSpace, IsWhiteSpace, SkipsTo;
    StandsFirst(s);
    if s != "" {
      PatternSpaceIs(s[0]);
      if IsPatternSpace(s[0]) {
        NoSpace();
        SkippedIs(s[1..]);
        if j: nat :| SkipsTo(s, j) {
          SkipsOneMore(s, j - 1);
        }
        if j: nat :| SkipsTo(s[1..], j) {
          SkipsOneMore(s, j);
        }
      }
    }
  }

  lemma {:induction false} StandsFirst(s: string)
    ensures SkipsTo(s, 0) <==> "steps." <= s
    ensures forall j: nat | SkipsTo(s, j) && j > 0 :: s != "" && IsWhiteSpace(s[0])
  {
    hide IsWhiteSpace;
    assert s[0..] == s;
  }

  lemma {:induction false} NoSpace()
    ensures !IsPatternSpace('s')
  {
  }

  lemma {:induction false} UnrootedIs(s: string)
    ensures HasUnrooted(s) <==> IsUnrooted(s)
  {
    hide SkipPatternSpace, IsWhiteSpace;
    if s != "" {
      UnrootedIs(s[1..]);
      StartIs(s);
      if i: nat, j: nat :| UnrootedAt(s[1..], i, j) {
        assert s[j + 1..] == s[1..][j..] && s[i + 1..i + 3] == s[1..][i..i + 2];
        assert forall k | i + 3 <= k < j + 1 :: s[k] == s[1..][k - 1];
        assert UnrootedAt(s, i + 1, j + 1);
      }
      if i: nat, j: nat :| UnrootedAt(s, i, j) && i > 0 {
        assert s[1..][j - 1..] == s[j..] && s[1..][i - 1..i + 1] == s[i..i + 2];
        assert forall k | i + 1 <= k < j - 1 :: s[1..][k] == s[k + 1];
        assert UnrootedAt(s[1..], i - 1, j - 1);
      }
    }
  }

  lemma {:induction false} AfterBraces(s: string, j: nat)
    requires "{{" <= s
    ensures UnrootedAt(s, 0, j + 2) <==> SkipsTo(s[2..], j)
  {
    hide IsWhiteSpace;
    if j + 2 <= |s| {
      assert s[2..][j..] == s[j + 2..];
      assert forall k | 0 <= k < j :: s[2..][k] == s[k + 2];
      assert forall k | 2 <= k < j + 2 :: s[k] == s[2..][k - 2];
    }
  }

  lemma {:induction false} StartIs(s: string)
    ensures StartsUnrooted(s) <==> exists j: nat :: UnrootedAt(s, 0, j)
  {
    hide SkipPatternSpace, IsWhiteSpace, SkipsTo;
    if "{{" <= s {
      SkippedIs(s[2..]);
      if j: nat :| SkipsTo(s[2..], j) {
        AfterBraces(s, j);
      }
      if j: nat :| UnrootedAt(s, 0, j) {
        AfterBraces(s, j - 2);
      }
    }
  }
}

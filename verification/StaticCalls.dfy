/** What an action calls, read off its steps, and that this is what the registration records. */
module StaticCalls {
  import opened Admission
  import opened Identity
  import opened InvokeGraph
  import opened Lifecycle
  import opened Registry
  import opened Wrappers

  // ------------------------------------------------------------ steps inside steps

  /** Into one of a step's bodies, to one of the steps there. */
  datatype Turn = Turn(body: nat, step: nat)

  /** From the i-th step, through bodies of the five types that hold steps, to `leaf`. */
  ghost predicate Leads(steps: seq<Step>, i: nat, path: seq<Turn>, leaf: Step)
    decreases |path|
  {
    i < |steps| &&
    if path == [] then leaf == steps[i]
    else
      && steps[i].stepType in ["for_each", "repeat", "ifs", "try", "parallel"]
      && path[0].body < |steps[i].bodies|
      && Leads(steps[i].bodies[path[0].body].steps, path[0].step, path[1..], leaf)
  }

  /** A step written anywhere in the action. */
  ghost predicate Within(steps: seq<Step>, leaf: Step)
  {
    exists i, path :: Leads(steps, i, path, leaf)
  }

  // ------------------------------------------------------------ what a step calls

  /** Its own alias of that name; else, for a dotted name, the nearest one up the plugin's chain. */
  ghost predicate AliasMeans(aliases: map<string, (string, string)>, p: string, m: Manifest, written: string,
                             t: NodeRef)
  {
    if exists i :: 0 <= i < |m.stepTypes| && m.stepTypes[i].0 == written
    then exists i :: FirstAlias(m.stepTypes, written, i) && t == NodeRef(p, m.stepTypes[i].1)
    else '.' in written && exists i :: NearestAlias(aliases, AncestorNamespaces(NamespaceOf(p)), written, i, t)
  }

  predicate FirstAlias(declared: seq<(string, string)>, written: string, i: int)
  {
    0 <= i < |declared| && declared[i].0 == written && forall j | 0 <= j < i :: declared[j].0 != written
  }

  predicate NearestAlias(aliases: map<string, (string, string)>, chain: seq<string>, written: string, i: int,
                         t: NodeRef)
  {
    && 0 <= i < |chain| && Qualify(chain[i], written) in aliases
    && (forall j | 0 <= j < i :: Qualify(chain[j], written) !in aliases)
    && t == NodeRef(aliases[Qualify(chain[i], written)].0, aliases[Qualify(chain[i], written)].1)
  }

  /** An `invoke` calls what it writes out; any other type that holds no steps calls what it is an alias of. */
  ghost predicate Calls(aliases: map<string, (string, string)>, p: string, m: Manifest, leaf: Step, t: NodeRef)
  {
    if leaf.stepType == "invoke" then
      "plugin" in leaf.texts && "action" in leaf.texts && t == NodeRef(leaf.texts["plugin"], leaf.texts["action"])
    else
      && leaf.stepType !in ["ifs", "try", "parallel"]
      && (leaf.stepType in ["for_each", "repeat"] ==> leaf.bodies == [])
      && AliasMeans(aliases, p, m, leaf.stepType, t)
  }

  /** Starts with a dollar sign or has double braces somewhere. */
  ghost predicate IsTemplate(text: string)
  {
    (text != "" && text[0] == '$') || exists i :: BracesAt(text, i)
  }

  predicate BracesAt(text: string, i: int)
  {
    0 <= i < |text| - 1 && text[i] == '{' && text[i + 1] == '{'
  }

  /** The definition a step type has: the manifest's last one of that name, else the registered one. */
  ghost predicate DefMeans(defs: map<string, (string, StepTypeDef)>, m: Manifest, written: string, def: StepTypeDef)
  {
    if exists i :: 0 <= i < |m.stepTypeDefs| && m.stepTypeDefs[i].name == written
    then exists i :: LastDef(m.stepTypeDefs, written, i) && def == m.stepTypeDefs[i]
    else written in defs && def == defs[written].1
  }

  predicate LastDef(defs: seq<StepTypeDef>, written: string, i: int)
  {
    0 <= i < |defs| && defs[i].name == written && forall j | i < j < |defs| :: defs[j].name != written
  }

  /** A target both halves of which a step writes out under the two parameters its type names for it. */
  ghost predicate Refers(defs: map<string, (string, StepTypeDef)>, m: Manifest, step: Step, t: NodeRef)
  {
    exists def, r :: DefMeans(defs, m, step.stepType, def) && r in def.references && WritesTarget(step, r, t)
  }

  ghost predicate WritesTarget(step: Step, r: (string, string), t: NodeRef)
  {
    && r.0 in step.texts && r.1 in step.texts
    && !IsTemplate(step.texts[r.0]) && !IsTemplate(step.texts[r.1])
    && t == NodeRef(step.texts[r.0], step.texts[r.1])
  }

  /** The action under that name calls or refers to the target, as far as its steps say. */
  ghost predicate StaticallyCalls(rows: Rows, p: string, m: Manifest, from: NodeRef, to: NodeRef)
  {
    from.plugin == p && exists a ::
      && 0 <= a < |m.actions| && m.actions[a].name == from.action
      && ((exists leaf :: Within(m.actions[a].steps, leaf) && Calls(rows.aliases, p, m, leaf, to))
          || exists step :: step in m.actions[a].steps && Refers(rows.stepTypeDefs, m, step, to))
  }

  // ------------------------------------------------------------ aliases and definitions

  lemma {:induction false} LocalAliasIs(declared: seq<(string, string)>, written: string)
    ensures LocalAlias(declared, written).None? <==> forall i | 0 <= i < |declared| :: declared[i].0 != written
    ensures forall i | FirstAlias(declared, written, i) :: LocalAlias(declared, written) == Some(declared[i].1)
    ensures LocalAlias(declared, written).Some? ==> exists i :: FirstAlias(declared, written, i)
  {
    if declared != [] && declared[0].0 != written {
      LocalAliasIs(declared[1..], written);
      forall i | FirstAlias(declared, written, i)
        ensures LocalAlias(declared, written) == Some(declared[i].1)
      {
        assert FirstAlias(declared[1..], written, i - 1);
      }
      if LocalAlias(declared, written).Some? {
        var i :| FirstAlias(declared[1..], written, i);
        assert FirstAlias(declared, written, i + 1);
      }
    } else if declared != [] {
      assert FirstAlias(declared, written, 0);
    }
  }

  lemma {:induction false} ChainAliasIs(aliases: map<string, (string, string)>, chain: seq<string>, written: string,
                                        t: NodeRef)
    ensures ChainAlias(aliases, chain, written) == Some(t) <==> exists i :: NearestAlias(aliases, chain, written, i, t)
  {
    hide Qualify;
    if chain != [] {
      var rest := chain[1..];
      ChainAliasIs(aliases, rest, written, t);
      if Qualify(chain[0], written) in aliases {
        assert ChainAlias(aliases, chain, written) == Some(t) ==> NearestAlias(aliases, chain, written, 0, t);
      } else {
        if i :| NearestAlias(aliases, rest, written, i, t) {
          assert NearestAlias(aliases, chain, written, i + 1, t);
        }
        if i :| NearestAlias(aliases, chain, written, i, t) {
          assert NearestAlias(aliases, rest, written, i - 1, t);
        }
      }
    }
  }

  lemma {:induction false} ResolveAliasIs(aliases: map<string, (string, string)>, p: string, m: Manifest,
                                          written: string, t: NodeRef)
    ensures ResolveAlias(aliases, p, m, written) == Some(t) <==> AliasMeans(aliases, p, m, written, t)
  {
    hide Qualify, AncestorNamespaces, NamespaceOf;
    LocalAliasIs(m.stepTypes, written);
    ChainAliasIs(aliases, AncestorNamespaces(NamespaceOf(p)), written, t);
  }

  lemma {:induction false} TemplatedIs(text: string)
    ensures HoldsBraces(text) <==> exists i :: BracesAt(text, i)
  {
    if text != "" {
      TemplatedIs(text[1..]);
      if i :| BracesAt(text[1..], i) {
        assert BracesAt(text, i + 1);
      }
      if i :| BracesAt(text, i) {
        assert i > 0 ==> BracesAt(text[1..], i - 1);
        assert i == 0 ==> text[..2] == "{{";
      }
      assert "{{" <= text ==> BracesAt(text, 0);
    }
  }

  lemma {:induction false} LocalDefIs(defs: seq<StepTypeDef>, written: string)
    ensures LocalDef(defs, written).None? <==> forall i | 0 <= i < |defs| :: defs[i].name != written
    ensures forall i | LastDef(defs, written, i) :: LocalDef(defs, written) == Some(defs[i])
    ensures LocalDef(defs, written).Some? ==> exists i :: LastDef(defs, written, i)
  {
    var n := |defs| - 1;
    if defs != [] && defs[n].name != written {
      var fewer := defs[..n];
      LocalDefIs(fewer, written);
      assert LocalDef(defs, written) == LocalDef(fewer, written);
      hide LocalDef;
      assert forall i | 0 <= i < n :: fewer[i] == defs[i];
      assert forall i :: LastDef(defs, written, i) <==> LastDef(fewer, written, i);
    } else if defs != [] {
      assert LastDef(defs, written, n);
    }
  }

  lemma {:induction false} DefOfIs(defs: map<string, (string, StepTypeDef)>, m: Manifest, written: string,
                                   def: StepTypeDef)
    ensures DefOf(defs, m, written) == Some(def) <==> DefMeans(defs, m, written, def)
  {
    LocalDefIs(m.stepTypeDefs, written);
  }

  // ------------------------------------------------------------ declared references

  lemma {:induction false} TargetsAre(step: Step, references: seq<(string, string)>, t: NodeRef)
    ensures t in TargetsOf(step, references) <==> exists r :: r in references && WritesTarget(step, r, t)
  {
    if references != [] {
      var first, rest := references[0], references[1..];
      TargetsAre(step, rest, t);
      TargetIs(step, first, t);
      if r :| r in references && WritesTarget(step, r, t) {
        assert r == first || r in rest;
      }
      assert forall r :: r in rest ==> r in references;
    }
  }

  lemma {:induction false} TargetIs(step: Step, r: (string, string), t: NodeRef)
    ensures ReferenceTarget(step, r) == Some(t) <==> WritesTarget(step, r, t)
  {
    if r.0 in step.texts && r.1 in step.texts {
      TemplatedIs(step.texts[r.0]);
      TemplatedIs(step.texts[r.1]);
    }
  }

  lemma {:induction false} StepTargetsAre(defs: map<string, (string, StepTypeDef)>, m: Manifest, steps: seq<Step>,
                                          t: NodeRef)
    ensures t in StepTargets(defs, m, steps) <==> exists step :: step in steps && Refers(defs, m, step, t)
  {
    hide Refers, TargetsOf, DefOf;
    if steps != [] {
      StepTargetsAre(defs, m, steps[1..], t);
      OneStepsTargets(defs, m, steps[0], t);
      if step :| step in steps && Refers(defs, m, step, t) {
        assert step == steps[0] || step in steps[1..];
      }
      assert forall step :: step in steps[1..] ==> step in steps;
    }
  }

  lemma {:induction false} OneStepsTargets(defs: map<string, (string, StepTypeDef)>, m: Manifest, step: Step,
                                           t: NodeRef)
    ensures Refers(defs, m, step, t) <==>
      DefOf(defs, m, step.stepType).Some? && t in TargetsOf(step, DefOf(defs, m, step.stepType).value.references)
  {
    hide DefOf, DefMeans, WritesTarget, TargetsOf;
    forall def
      ensures DefOf(defs, m, step.stepType) == Some(def) <==> DefMeans(defs, m, step.stepType, def)
      ensures t in TargetsOf(step, def.references) <==> exists r :: r in def.references && WritesTarget(step, r, t)
    {
      DefOfIs(defs, m, step.stepType, def);
      TargetsAre(step, def.references, t);
    }
  }

  // ------------------------------------------------------------ the walk

  lemma {:induction false} LeafEdge(aliases: map<string, (string, string)>, p: string, m: Manifest, action: string,
                                    step: Step, t: NodeRef)
    requires Calls(aliases, p, m, step, t)
    ensures InvokeEdge(NodeRef(p, action), t) in EdgesOfStep(aliases, p, m, action, step)
  {
    hide AliasMeans, ResolveAlias;
    ResolveAliasIs(aliases, p, m, step.stepType, t);
  }

  /** What a path leads to is walked. */
  lemma {:induction false} PathIsWalked(aliases: map<string, (string, string)>, p: string, m: Manifest, action: string,
                                        steps: seq<Step>, i: nat, path: seq<Turn>, leaf: Step, t: NodeRef)
    requires Leads(steps, i, path, leaf) && Calls(aliases, p, m, leaf, t)
    ensures InvokeEdge(NodeRef(p, action), t) in StepEdges(aliases, p, m, action, steps)
    decreases |path|
  {
    hide Calls, ResolveAlias;
    var e := InvokeEdge(NodeRef(p, action), t);
    if path == [] {
      LeafEdge(aliases, p, m, action, steps[i], t);
    } else {
      var bodies := steps[i].bodies;
      PathIsWalked(aliases, p, m, action, bodies[path[0].body].steps, path[0].step, path[1..], leaf, t);
      BodyIsWalked(aliases, p, m, action, bodies, path[0].body, e);
      assert HasBodies(steps[i]);
    }
    StepIsWalked(aliases, p, m, action, steps, i, e);
  }

  lemma {:induction false} StepIsWalked(aliases: map<string, (string, string)>, p: string, m: Manifest, action: string,
                                        steps: seq<Step>, i: nat, e: InvokeEdge)
    requires i < |steps| && e in EdgesOfStep(aliases, p, m, action, steps[i])
    ensures e in StepEdges(aliases, p, m, action, steps)
  {
    hide EdgesOfStep;
    if i > 0 {
      StepIsWalked(aliases, p, m, action, steps[1..], i - 1, e);
    }
  }

  lemma {:induction false} BodyIsWalked(aliases: map<string, (string, string)>, p: string, m: Manifest, action: string,
                                        bodies: seq<Body>, b: nat, e: InvokeEdge)
    requires b < |bodies| && e in StepEdges(aliases, p, m, action, bodies[b].steps)
    ensures e in BodyEdges(aliases, p, m, action, bodies)
  {
    hide StepEdges;
    if b > 0 {
      BodyIsWalked(aliases, p, m, action, bodies[1..], b - 1, e);
    }
  }

  /** What is walked has a path. */
  lemma {:induction false} WalkedHasPath(aliases: map<string, (string, string)>, p: string, m: Manifest,
                                         action: string, steps: seq<Step>, e: InvokeEdge)
    returns (i: nat, path: seq<Turn>, leaf: Step)
    requires e in StepEdges(aliases, p, m, action, steps)
    ensures e.from == NodeRef(p, action) && Leads(steps, i, path, leaf) && Calls(aliases, p, m, leaf, e.to)
    decreases steps
  {
    hide Calls, EdgesOfStep;
    if e in EdgesOfStep(aliases, p, m, action, steps[0]) {
      path, leaf := StepHasPath(aliases, p, m, action, steps[0], e);
      i := 0;
      if path != [] {
        assert Leads(steps[0].bodies[path[0].body].steps, path[0].step, path[1..], leaf);
      }
    } else {
      var k;
      k, path, leaf := WalkedHasPath(aliases, p, m, action, steps[1..], e);
      i := k + 1;
    }
  }

  lemma {:induction false} StepHasPath(aliases: map<string, (string, string)>, p: string, m: Manifest, action: string,
                                       step: Step, e: InvokeEdge) returns (path: seq<Turn>, leaf: Step)
    requires e in EdgesOfStep(aliases, p, m, action, step)
    ensures e.from == NodeRef(p, action) && Leads([step], 0, path, leaf) && Calls(aliases, p, m, leaf, e.to)
    decreases step
  {
    hide AliasMeans, ResolveAlias;
    if step.stepType == "invoke" || !HasBodies(step) {
      ResolveAliasIs(aliases, p, m, step.stepType, e.to);
      return [], step;
    }
    hide Calls;
    var b, i, rest;
    b, i, rest, leaf := BodiesHavePath(aliases, p, m, action, step.bodies, e);
    path := [Turn(b, i)] + rest;
    assert path[1..] == rest;
  }

  lemma {:induction false} BodiesHavePath(aliases: map<string, (string, string)>, p: string, m: Manifest,
                                          action: string, bodies: seq<Body>, e: InvokeEdge)
    returns (b: nat, i: nat, path: seq<Turn>, leaf: Step)
    requires e in BodyEdges(aliases, p, m, action, bodies)
    ensures e.from == NodeRef(p, action) && b < |bodies| && Leads(bodies[b].steps, i, path, leaf)
    ensures Calls(aliases, p, m, leaf, e.to)
    decreases bodies
  {
    hide Calls, StepEdges;
    if e in StepEdges(aliases, p, m, action, bodies[0].steps) {
      b := 0;
      i, path, leaf := WalkedHasPath(aliases, p, m, action, bodies[0].steps, e);
    } else {
      var k;
      k, i, path, leaf := BodiesHavePath(aliases, p, m, action, bodies[1..], e);
      b := k + 1;
    }
  }

  // ------------------------------------------------------------ what is recorded

  ghost predicate ActionCalls(rows: Rows, p: string, m: Manifest, steps: seq<Step>, to: NodeRef)
  {
    exists leaf :: Within(steps, leaf) && Calls(rows.aliases, p, m, leaf, to)
  }

  lemma {:induction false} StepEdgesAre(rows: Rows, p: string, m: Manifest, action: string, steps: seq<Step>,
                                        e: InvokeEdge)
    ensures e in StepEdges(rows.aliases, p, m, action, steps) <==>
      e.from == NodeRef(p, action) && ActionCalls(rows, p, m, steps, e.to)
  {
    hide StepEdges, Calls, Leads;
    if e in StepEdges(rows.aliases, p, m, action, steps) {
      var i, path, leaf := WalkedHasPath(rows.aliases, p, m, action, steps, e);
      assert Within(steps, leaf);
    }
    if e.from == NodeRef(p, action) && ActionCalls(rows, p, m, steps, e.to) {
      var leaf :| Within(steps, leaf) && Calls(rows.aliases, p, m, leaf, e.to);
      var i: nat, path :| Leads(steps, i, path, leaf);
      PathIsWalked(rows.aliases, p, m, action, steps, i, path, leaf, e.to);
    }
  }

  lemma {:induction false} ActionEdgesAre(rows: Rows, p: string, m: Manifest, actions: seq<ActionDef>, e: InvokeEdge)
    ensures e in ActionEdges(rows.aliases, p, m, actions) <==> exists a | 0 <= a < |actions| ::
      e.from == NodeRef(p, actions[a].name) && ActionCalls(rows, p, m, actions[a].steps, e.to)
  {
    hide StepEdges, ActionCalls;
    if actions != [] {
      var rest := actions[1..];
      StepEdgesAre(rows, p, m, actions[0].name, actions[0].steps, e);
      ActionEdgesAre(rows, p, m, rest, e);
      assert forall a | 0 <= a < |rest| :: rest[a] == actions[a + 1];
      assert forall a | 1 <= a < |actions| :: actions[a] == rest[a - 1];
    }
  }

  lemma {:induction false} DeclaredEdgesAre(rows: Rows, p: string, m: Manifest, actions: seq<ActionDef>, e: InvokeEdge)
    ensures e in DeclaredEdges(rows.stepTypeDefs, p, m, actions) <==> exists a | 0 <= a < |actions| ::
      e.from == NodeRef(p, actions[a].name) && e.to in StepTargets(rows.stepTypeDefs, m, actions[a].steps)
  {
    hide StepTargets;
    if actions != [] {
      var rest := actions[1..];
      var targets := StepTargets(rows.stepTypeDefs, m, actions[0].steps);
      var edges := EdgesTo(p, actions[0].name, targets);
      assert forall i | 0 <= i < |targets| :: edges[i] == InvokeEdge(NodeRef(p, actions[0].name), targets[i]);
      assert e in edges <==> e.from == NodeRef(p, actions[0].name) && e.to in targets;
      DeclaredEdgesAre(rows, p, m, rest, e);
      assert forall a | 0 <= a < |rest| :: rest[a] == actions[a + 1];
      assert forall a | 1 <= a < |actions| :: actions[a] == rest[a - 1];
    }
  }

  /** A registration records exactly the static calls of the manifest's actions. */
  lemma {:induction false} EdgesAreStaticCalls(rows: Rows, p: string, m: Manifest, from: NodeRef, to: NodeRef)
    ensures InvokeEdge(from, to) in NewEdges(rows, p, m) <==> StaticallyCalls(rows, p, m, from, to)
  {
    hide ActionEdges, DeclaredEdges, StepTargets, Calls, Within, Refers;
    var e := InvokeEdge(from, to);
    ActionEdgesAre(rows, p, m, m.actions, e);
    DeclaredEdgesAre(rows, p, m, m.actions, e);
    forall a | 0 <= a < |m.actions|
      ensures to in StepTargets(rows.stepTypeDefs, m, m.actions[a].steps) <==>
        exists step :: step in m.actions[a].steps && Refers(rows.stepTypeDefs, m, step, to)
    {
      StepTargetsAre(rows.stepTypeDefs, m, m.actions[a].steps, to);
    }
  }

  // ------------------------------------------------------------ no accepted registration closes a cycle

  /** A call on record, or one of the manifest now registered. */
  ghost predicate CallsNow(rows: Rows, p: string, m: Manifest, from: NodeRef, to: NodeRef)
  {
    InvokeEdge(from, to) in rows.invokeEdges || StaticallyCalls(rows, p, m, from, to)
  }

  /** A chain of such calls that comes back to where it began. */
  ghost predicate CallsInCircle(rows: Rows, p: string, m: Manifest, round: seq<NodeRef>)
  {
    |round| >= 2 && round[0] == round[|round| - 1] &&
    forall i | 0 <= i < |round| - 1 :: CallsNow(rows, p, m, round[i], round[i + 1])
  }

  /** The cycle check refuses exactly when the recorded calls and the manifest's static calls close a circle. */
  lemma {:induction false} AcyclicExactlyWhen(rows: Rows, p: string, m: Manifest)
    ensures Acyclic(rows.invokeEdges + NewEdges(rows, p, m)) <==> !exists round :: CallsInCircle(rows, p, m, round)
  {
    hide NewEdges, StaticallyCalls;
    var edges := rows.invokeEdges + NewEdges(rows, p, m);
    forall from, to
      ensures InvokeEdge(from, to) in edges <==> CallsNow(rows, p, m, from, to)
    {
      EdgesAreStaticCalls(rows, p, m, from, to);
    }
    if round :| CallsInCircle(rows, p, m, round) {
      assert IsCycle(edges, round);
    }
    if round :| IsCycle(edges, round) {
      assert CallsInCircle(rows, p, m, round);
    }
  }

  lemma {:induction false} AcceptedIsAcyclic(k: KernelState, namespace: string, m: Manifest, kernelOwned: bool)
    ensures var r, p := Rejection(k, namespace, m, kernelOwned), Qualify(namespace, m.name);
      && (r.None? ==> Acyclic(k.rows.invokeEdges + NewEdges(k.rows, p, m)))
      && (r == Some(InvokeCycle) ==> !Acyclic(k.rows.invokeEdges + NewEdges(k.rows, p, m)))
  {
    hide Qualify, ValidateName, MeetsContracts, AliasesSound, ImportsFree, ImportKeys, ScriptsRun, ReferencesKnown,
      Acyclic, NewEdges, DefsFree, ImplsDefined, ImplsFree;
  }

  /** So no registration is accepted that closes a circle of calls, and one is refused for a cycle only if it would. */
  lemma {:induction false} NoAcceptedCircle(k: KernelState, namespace: string, m: Manifest, kernelOwned: bool)
    ensures RegisterPlugin(k, namespace, m, kernelOwned).Ok? ==>
      forall round :: !CallsInCircle(k.rows, Qualify(namespace, m.name), m, round)
    ensures RegisterPlugin(k, namespace, m, kernelOwned) == Err(InvokeCycle) ==>
      exists round :: CallsInCircle(k.rows, Qualify(namespace, m.name), m, round)
  {
    hide Qualify, Rejection, Registered, Acyclic, NewEdges, CallsInCircle;
    AcceptedIsAcyclic(k, namespace, m, kernelOwned);
    AcyclicExactlyWhen(k.rows, Qualify(namespace, m.name), m);
  }
}

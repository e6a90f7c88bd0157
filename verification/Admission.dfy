/** What a manifest needs of the registry it is loaded into, and what it brings along. */
module Admission {
  import opened Identity
  import opened InvokeGraph
  import opened Registry
  import opened Wrappers

  datatype ContractAction = ContractAction(name: string, optional: bool)

  /** A role contract: the actions its providers have, the optional ones apart. */
  datatype Contract = Contract(text: string, actions: seq<ContractAction>)

  // ------------------------------------------------------------ roles

  /** The nearest contract up the chain. */
  function NearestContract(spi: map<string, Contract>, chain: seq<string>, role: string): Option<string>
  {
    if chain == [] then None
    else if Qualify(chain[0], role) in spi then Some(Qualify(chain[0], role))
    else NearestContract(spi, chain[1..], role)
  }

  /** The nearest defined contract, or the plugin's own namespace when there is none. */
  function RoleKey(spi: map<string, Contract>, namespace: string, role: string): string
  {
    match NearestContract(spi, AncestorNamespaces(namespace), role)
    case Some(key) => key
    case None => Qualify(namespace, role)
  }

  /** Each key once, in declaration order. */
  function RoleKeysFor(spi: map<string, Contract>, namespace: string, roles: seq<string>): seq<string>
  {
    if roles == [] then []
    else
      var keys, key := RoleKeysFor(spi, namespace, roles[..|roles| - 1]), RoleKey(spi, namespace, roles[|roles| - 1]);
      if key in keys then keys else keys + [key]
  }

  predicate HasAction(m: Manifest, name: string)
  {
    exists j | 0 <= j < |m.actions| :: m.actions[j].name == name
  }

  predicate Provides(m: Manifest, c: Contract)
  {
    forall i | 0 <= i < |c.actions| && !c.actions[i].optional :: HasAction(m, c.actions[i].name)
  }

  /** Every declared role that resolves to a contract is provided; an unknown role asks for nothing. */
  predicate MeetsContracts(spi: map<string, Contract>, namespace: string, m: Manifest)
  {
    forall i | 0 <= i < |m.roles| ::
      match NearestContract(spi, AncestorNamespaces(namespace), m.roles[i])
      case None => true
      case Some(key) => key in spi ==> Provides(m, spi[key])
  }

  // ------------------------------------------------------------ aliases

  function LocalAlias(aliases: seq<(string, string)>, written: string): Option<string>
  {
    if aliases == [] then None
    else if aliases[0].0 == written then Some(aliases[0].1)
    else LocalAlias(aliases[1..], written)
  }

  function ChainAlias(aliases: map<string, (string, string)>, chain: seq<string>, written: string): Option<NodeRef>
  {
    if chain == [] then None
    else
      var key := Qualify(chain[0], written);
      if key in aliases then Some(NodeRef(aliases[key].0, aliases[key].1)) else ChainAlias(aliases, chain[1..], written)
  }

  /** The manifest's own aliases first, then a dotted name along the plugin's chain. */
  function ResolveAlias(aliases: map<string, (string, string)>, p: string, m: Manifest, written: string)
    : Option<NodeRef>
  {
    match LocalAlias(m.stepTypes, written)
    case Some(action) => Some(NodeRef(p, action))
    case None =>
      if STEP_TYPE_SEPARATOR in written then ChainAlias(aliases, AncestorNamespaces(NamespaceOf(p)), written) else None
  }

  // ------------------------------------------------------------ invoke edges

  /** Step types whose bodies are walked. `for_each` and `repeat` without a body are looked up like any other type. */
  predicate HasBodies(step: Step)
  {
    step.stepType == "ifs" || step.stepType == "try" || step.stepType == "parallel"
    || ((step.stepType == "for_each" || step.stepType == "repeat") && step.bodies != [])
  }

  /** The target an `invoke` step writes out, if it does. */
  function InvokeTarget(step: Step): Option<NodeRef>
  {
    if "plugin" in step.texts && "action" in step.texts
    then Some(NodeRef(step.texts["plugin"], step.texts["action"]))
    else None
  }

  function EdgeTo(p: string, action: string, target: Option<NodeRef>): (edges: seq<InvokeEdge>)
    ensures AllFrom(edges, p)
  {
    match target case None => [] case Some(t) => [InvokeEdge(NodeRef(p, action), t)]
  }

  /** The edges of the steps and of all bodies in them, in walk order. An `invoke` records its target as written. */
  function StepEdges(aliases: map<string, (string, string)>, p: string, m: Manifest, action: string, steps: seq<Step>)
    : (edges: seq<InvokeEdge>)
    ensures AllFrom(edges, p)
    decreases steps
  {
    if steps == [] then []
    else EdgesOfStep(aliases, p, m, action, steps[0]) + StepEdges(aliases, p, m, action, steps[1..])
  }

  function EdgesOfStep(aliases: map<string, (string, string)>, p: string, m: Manifest, action: string, step: Step)
    : (edges: seq<InvokeEdge>)
    ensures AllFrom(edges, p)
    decreases step
  {
    if step.stepType == "invoke" then EdgeTo(p, action, InvokeTarget(step))
    else if HasBodies(step) then BodyEdges(aliases, p, m, action, step.bodies)
    else EdgeTo(p, action, ResolveAlias(aliases, p, m, step.stepType))
  }

  function BodyEdges(aliases: map<string, (string, string)>, p: string, m: Manifest, action: string, bodies: seq<Body>)
    : (edges: seq<InvokeEdge>)
    ensures AllFrom(edges, p)
    decreases bodies
  {
    if bodies == [] then []
    else StepEdges(aliases, p, m, action, bodies[0].steps) + BodyEdges(aliases, p, m, action, bodies[1..])
  }

  function ActionEdges(aliases: map<string, (string, string)>, p: string, m: Manifest, actions: seq<ActionDef>)
    : (edges: seq<InvokeEdge>)
    ensures AllFrom(edges, p)
  {
    if actions == [] then []
    else
      StepEdges(aliases, p, m, actions[0].name, actions[0].steps) + ActionEdges(aliases, p, m, actions[1..])
  }

  // ------------------------------------------------------------ declared references

  predicate Templated(text: string)
  {
    text != "" && (text[0] == '$' || HoldsBraces(text))
  }

  predicate HoldsBraces(text: string)
  {
    text != "" && ("{{" <= text || HoldsBraces(text[1..]))
  }

  /** The last definition of that name the manifest brings. */
  function LocalDef(defs: seq<StepTypeDef>, name: string): Option<StepTypeDef>
  {
    if defs == [] then None
    else if defs[|defs| - 1].name == name then Some(defs[|defs| - 1])
    else LocalDef(defs[..|defs| - 1], name)
  }

  /** The manifest's own definition, else the registered one under the name as written. */
  function DefOf(defs: map<string, (string, StepTypeDef)>, m: Manifest, written: string): Option<StepTypeDef>
  {
    match LocalDef(m.stepTypeDefs, written)
    case Some(def) => Some(def)
    case None => if written in defs then Some(defs[written].1) else None
  }

  /** A target both of whose parameters are there and no templates. */
  function ReferenceTarget(step: Step, reference: (string, string)): Option<NodeRef>
  {
    if reference.0 in step.texts && reference.1 in step.texts
       && !Templated(step.texts[reference.0]) && !Templated(step.texts[reference.1])
    then Some(NodeRef(step.texts[reference.0], step.texts[reference.1]))
    else None
  }

  function TargetsOf(step: Step, references: seq<(string, string)>): seq<NodeRef>
  {
    if references == [] then []
    else
      (match ReferenceTarget(step, references[0]) case None => [] case Some(t) => [t]) +
        TargetsOf(step, references[1..])
  }

  /** What the top-level steps refer to through the definitions of their types. */
  function StepTargets(defs: map<string, (string, StepTypeDef)>, m: Manifest, steps: seq<Step>): seq<NodeRef>
  {
    if steps == [] then []
    else
      (match DefOf(defs, m, steps[0].stepType)
       case None => []
       case Some(def) => TargetsOf(steps[0], def.references))
      + StepTargets(defs, m, steps[1..])
  }

  function EdgesTo(p: string, action: string, targets: seq<NodeRef>): (edges: seq<InvokeEdge>)
    ensures AllFrom(edges, p)
  {
    seq(|targets|, i requires 0 <= i < |targets| => InvokeEdge(NodeRef(p, action), targets[i]))
  }

  function DeclaredEdges(defs: map<string, (string, StepTypeDef)>, p: string, m: Manifest, actions: seq<ActionDef>)
    : (edges: seq<InvokeEdge>)
    ensures AllFrom(edges, p)
  {
    if actions == [] then []
    else
      EdgesTo(p, actions[0].name, StepTargets(defs, m, actions[0].steps)) + DeclaredEdges(defs, p, m, actions[1..])
  }

  /** The target is this plugin's own action, or an action of a registered plugin. */
  predicate Known(rows: Rows, p: string, m: Manifest, target: NodeRef)
  {
    if target.plugin == p then HasAction(m, target.action)
    else target.plugin in rows.manifests && (target.plugin, target.action) in rows.modules
  }

  predicate ReferencesKnown(rows: Rows, p: string, m: Manifest)
  {
    forall i, t | 0 <= i < |m.actions| && t in StepTargets(rows.stepTypeDefs, m, m.actions[i].steps) ::
      Known(rows, p, m, t)
  }

  /** Everything the registration adds to the invoke graph: walked edges first, declared references after. */
  function NewEdges(rows: Rows, p: string, m: Manifest): (edges: seq<InvokeEdge>)
    ensures AllFrom(edges, p)
  {
    ActionEdges(rows.aliases, p, m, m.actions) + DeclaredEdges(rows.stepTypeDefs, p, m, m.actions)
  }

  // ------------------------------------------------------------ script languages

  /** The languages of all `script` steps, at any depth. */
  function Languages(steps: seq<Step>): set<string>
    decreases steps
  {
    if steps == [] then {} else LanguagesOf(steps[0]) + Languages(steps[1..])
  }

  function LanguagesOf(step: Step): set<string>
    decreases step
  {
    (if step.stepType == "script" && "language" in step.texts then {step.texts["language"]} else {})
    + if HasBodies(step) then BodyLanguages(step.bodies) else {}
  }

  function BodyLanguages(bodies: seq<Body>): set<string>
    decreases bodies
  {
    if bodies == [] then {} else Languages(bodies[0].steps) + BodyLanguages(bodies[1..])
  }

  /** A registered runtime, or one the manifest brings itself. */
  predicate Runs(impls: map<ImplKey, (string, string)>, m: Manifest, language: string)
  {
    ("script", Some(language)) in impls
    || exists i | 0 <= i < |m.stepTypeImpls| ::
         m.stepTypeImpls[i].stepType == "script" && m.stepTypeImpls[i].selector == Some(language)
  }

  predicate ScriptsRun(impls: map<ImplKey, (string, string)>, m: Manifest)
  {
    forall i, l | 0 <= i < |m.actions| && l in Languages(m.actions[i].steps) :: Runs(impls, m, l)
  }

  // ------------------------------------------------------------ linker imports

  /** Step types that claim a linker import: native and intrinsic implementations, then aliases. */
  function ImplImports(impls: seq<StepTypeImpl>): seq<string>
  {
    if impls == [] then []
    else
      var rest, last := ImplImports(impls[..|impls| - 1]), impls[|impls| - 1];
      if last.kind.Wasm? then rest else rest + [last.stepType]
  }

  function ImportKeys(p: string, m: Manifest): seq<string>
  {
    var impls := ImplImports(m.stepTypeImpls);
    seq(|impls|, i requires 0 <= i < |impls| => StepTypeKey(p, impls[i]))
    + seq(|m.stepTypes|, i requires 0 <= i < |m.stepTypes| => StepTypeKey(p, m.stepTypes[i].0))
  }

  // ------------------------------------------------------------ slots

  predicate AliasesSound(aliases: map<string, (string, string)>, p: string, m: Manifest)
  {
    forall i | 0 <= i < |m.stepTypes| ::
      StepTypeKey(p, m.stepTypes[i].0) !in aliases && HasAction(m, m.stepTypes[i].1)
  }

  /** Each key unclaimed or already this plugin's, and none claimed twice by the manifest. */
  predicate ImportsFree(owners: map<string, string>, p: string, keys: seq<string>)
  {
    && (forall i | 0 <= i < |keys| :: keys[i] in owners ==> owners[keys[i]] == p)
    && forall i, j | 0 <= i < j < |keys| :: keys[i] != keys[j]
  }

  predicate DefsFree(defs: map<string, (string, StepTypeDef)>, p: string, m: Manifest)
  {
    && (forall i | 0 <= i < |m.stepTypeDefs| :: StepTypeKey(p, m.stepTypeDefs[i].name) !in defs)
    && forall i, j | 0 <= i < j < |m.stepTypeDefs| :: m.stepTypeDefs[i].name != m.stepTypeDefs[j].name
  }

  predicate ImplsFree(impls: map<ImplKey, (string, string)>, p: string, m: Manifest)
  {
    && (forall i | 0 <= i < |m.stepTypeImpls| && m.stepTypeImpls[i].kind.Wasm? ::
          (StepTypeKey(p, m.stepTypeImpls[i].stepType), m.stepTypeImpls[i].selector) !in impls)
    && forall i, j | 0 <= i < j < |m.stepTypeImpls| ::
         m.stepTypeImpls[i].stepType != m.stepTypeImpls[j].stepType ||
           m.stepTypeImpls[i].selector != m.stepTypeImpls[j].selector
  }

  /** Every implemented step type has a definition, the manifest's own or a registered one. */
  predicate ImplsDefined(defs: map<string, (string, StepTypeDef)>, p: string, m: Manifest)
  {
    forall i | 0 <= i < |m.stepTypeImpls| ::
      LocalDef(m.stepTypeDefs, m.stepTypeImpls[i].stepType).Some? || StepTypeKey(p, m.stepTypeImpls[i].stepType) in defs
  }
}

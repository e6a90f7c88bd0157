/** What a plugin must satisfy to be registered, said about its manifest and the registry alone. */
module AdmissionLaws {
  import opened Admission
  import opened Identity
  import opened InvokeGraph
  import opened Lifecycle
  import opened Registry
  import opened StaticCalls
  import opened Wrappers

  // ------------------------------------------------------------ roles

  /** A contract for the role is defined in that namespace, and in none nearer. */
  predicate NearestDefined(spi: map<string, Contract>, chain: seq<string>, role: string, i: int)
  {
    0 <= i < |chain| && Qualify(chain[i], role) in spi && forall j | 0 <= j < i :: Qualify(chain[j], role) !in spi
  }

  lemma {:induction false} NearestContractIs(spi: map<string, Contract>, chain: seq<string>, role: string)
    ensures NearestContract(spi, chain, role).None? <==> forall i | 0 <= i < |chain| :: Qualify(chain[i], role) !in spi
    ensures forall i | NearestDefined(spi, chain, role, i) ::
      NearestContract(spi, chain, role) == Some(Qualify(chain[i], role))
    ensures NearestContract(spi, chain, role).Some? ==> exists i :: NearestDefined(spi, chain, role, i)
  {
    hide Qualify;
    if chain != [] && Qualify(chain[0], role) !in spi {
      var rest := chain[1..];
      NearestContractIs(spi, rest, role);
      forall i | NearestDefined(spi, chain, role, i)
        ensures NearestContract(spi, chain, role) == Some(Qualify(chain[i], role))
      {
        assert NearestDefined(spi, rest, role, i - 1);
      }
      if NearestContract(spi, chain, role).Some? {
        var i :| NearestDefined(spi, rest, role, i);
        assert NearestDefined(spi, chain, role, i + 1);
      }
    } else if chain != [] {
      assert NearestDefined(spi, chain, role, 0);
    }
  }

  /** The contract that a role named in a namespace means, if there is any. */
  ghost predicate RoleMeans(spi: map<string, Contract>, namespace: string, role: string, key: string)
  {
    exists i :: NearestDefined(spi, AncestorNamespaces(namespace), role, i)
                && key == Qualify(AncestorNamespaces(namespace)[i], role)
  }

  /** The key a role is recorded under: its contract's, or one in the plugin's own namespace when there is none. */
  ghost predicate RecordedUnder(spi: map<string, Contract>, namespace: string, role: string, key: string)
  {
    RoleMeans(spi, namespace, role, key)
    || (key == Qualify(namespace, role) && forall other :: !RoleMeans(spi, namespace, role, other))
  }

  lemma {:induction false} RoleMeansIs(spi: map<string, Contract>, namespace: string, role: string, key: string)
    ensures RoleMeans(spi, namespace, role, key) <==>
      NearestContract(spi, AncestorNamespaces(namespace), role) == Some(key)
  {
    hide AncestorNamespaces, Qualify;
    NearestContractIs(spi, AncestorNamespaces(namespace), role);
  }

  lemma {:induction false} RoleKeyIs(spi: map<string, Contract>, namespace: string, role: string)
    ensures forall key :: RecordedUnder(spi, namespace, role, key) <==> RoleKey(spi, namespace, role) == key
  {
    hide AncestorNamespaces, Qualify, RoleMeans;
    forall key
      ensures RoleMeans(spi, namespace, role, key) <==>
        NearestContract(spi, AncestorNamespaces(namespace), role) == Some(key)
    {
      RoleMeansIs(spi, namespace, role, key);
    }
    if NearestContract(spi, AncestorNamespaces(namespace), role).Some? {
      assert RoleMeans(spi, namespace, role, RoleKey(spi, namespace, role));
    }
  }

  ghost predicate Brings(spi: map<string, Contract>, namespace: string, roles: seq<string>, key: string)
  {
    exists role :: role in roles && RecordedUnder(spi, namespace, role, key)
  }

  /** The keys of all declared roles, each once, in the order of the roles that first bring them. */
  lemma {:induction false} RoleKeysAre(spi: map<string, Contract>, namespace: string, roles: seq<string>)
    ensures var keys := RoleKeysFor(spi, namespace, roles);
      && (forall key :: key in keys <==> Brings(spi, namespace, roles, key))
      && (forall i, j | 0 <= i < j < |keys| :: keys[i] != keys[j])
      && (forall n | 0 <= n <= |roles| :: RoleKeysFor(spi, namespace, roles[..n]) <= keys)
  {
    hide RecordedUnder, RoleKey;
    if roles == [] {
      assert forall n | 0 <= n <= |roles| :: roles[..n] == [];
    } else {
      var k := |roles| - 1;
      var fewer, last := roles[..k], roles[k];
      RoleKeysAre(spi, namespace, fewer);
      RoleKeyIs(spi, namespace, last);
      assert roles == fewer + [last];
      forall key
        ensures Brings(spi, namespace, roles, key) <==>
          Brings(spi, namespace, fewer, key) || key == RoleKey(spi, namespace, last)
      {
        assert RecordedUnder(spi, namespace, last, key) <==> RoleKey(spi, namespace, last) == key;
        if role :| role in roles && RecordedUnder(spi, namespace, role, key) {
          assert role in fewer || role == last;
        }
        if role :| role in fewer && RecordedUnder(spi, namespace, role, key) {
          assert role in roles;
        }
        assert last in roles;
      }
      forall n | 0 <= n <= |roles|
        ensures RoleKeysFor(spi, namespace, roles[..n]) <= RoleKeysFor(spi, namespace, roles)
      {
        if n <= k {
          assert roles[..n] == fewer[..n];
        } else {
          assert roles[..n] == roles;
        }
      }
    }
  }

  // ------------------------------------------------------------ scripts

  /** A script in that language is written somewhere in the steps. */
  ghost predicate Scripts(steps: seq<Step>, language: string)
  {
    exists leaf :: Within(steps, leaf) && leaf.stepType == "script" && InLanguage(leaf, language)
  }

  predicate InLanguage(leaf: Step, language: string)
  {
    "language" in leaf.texts && leaf.texts["language"] == language
  }

  lemma {:induction false} PathIsScript(steps: seq<Step>, i: nat, path: seq<Turn>, leaf: Step, language: string)
    requires Leads(steps, i, path, leaf) && leaf.stepType == "script" && InLanguage(leaf, language)
    ensures language in Languages(steps)
    decreases |path|
  {
    if path != [] {
      var bodies := steps[i].bodies;
      PathIsScript(bodies[path[0].body].steps, path[0].step, path[1..], leaf, language);
      BodyIsScript(bodies, path[0].body, language);
    }
    assert language in LanguagesOf(steps[i]);
    StepIsScript(steps, i, language);
  }

  lemma {:induction false} StepIsScript(steps: seq<Step>, i: nat, language: string)
    requires i < |steps| && language in LanguagesOf(steps[i])
    ensures language in Languages(steps)
  {
    hide LanguagesOf;
    if i > 0 {
      StepIsScript(steps[1..], i - 1, language);
    }
  }

  lemma {:induction false} BodyIsScript(bodies: seq<Body>, b: nat, language: string)
    requires b < |bodies| && language in Languages(bodies[b].steps)
    ensures language in BodyLanguages(bodies)
  {
    hide Languages;
    if b > 0 {
      BodyIsScript(bodies[1..], b - 1, language);
    }
  }

  lemma {:induction false} ScriptHasPath(steps: seq<Step>, language: string)
    returns (i: nat, path: seq<Turn>, leaf: Step)
    requires language in Languages(steps)
    ensures Leads(steps, i, path, leaf) && leaf.stepType == "script" && InLanguage(leaf, language)
    decreases steps
  {
    if language in LanguagesOf(steps[0]) {
      i := 0;
      path, leaf := ScriptInStep(steps[0], language);
      if path != [] {
        assert Leads(steps[0].bodies[path[0].body].steps, path[0].step, path[1..], leaf);
      }
    } else {
      hide LanguagesOf, InLanguage;
      var k;
      k, path, leaf := ScriptHasPath(steps[1..], language);
      i := k + 1;
    }
  }

  lemma {:induction false} ScriptInStep(step: Step, language: string) returns (path: seq<Turn>, leaf: Step)
    requires language in LanguagesOf(step)
    ensures Leads([step], 0, path, leaf) && leaf.stepType == "script" && InLanguage(leaf, language)
    decreases step
  {
    if HasBodies(step) {
      var b, i, rest;
      b, i, rest, leaf := ScriptInBodies(step.bodies, language);
      path := [Turn(b, i)] + rest;
      assert path[1..] == rest;
    } else {
      return [], step;
    }
  }

  lemma {:induction false} ScriptInBodies(bodies: seq<Body>, language: string)
    returns (b: nat, i: nat, path: seq<Turn>, leaf: Step)
    requires language in BodyLanguages(bodies)
    ensures b < |bodies| && Leads(bodies[b].steps, i, path, leaf)
    ensures leaf.stepType == "script" && InLanguage(leaf, language)
    decreases bodies
  {
    hide InLanguage;
    if language in Languages(bodies[0].steps) {
      b := 0;
      i, path, leaf := ScriptHasPath(bodies[0].steps, language);
    } else {
      var k;
      k, i, path, leaf := ScriptInBodies(bodies[1..], language);
      b := k + 1;
    }
  }

  lemma {:induction false} LanguagesAre(steps: seq<Step>, language: string)
    ensures language in Languages(steps) <==> Scripts(steps, language)
  {
    hide Languages, Leads, InLanguage;
    if language in Languages(steps) {
      var i, path, leaf := ScriptHasPath(steps, language);
      assert Within(steps, leaf);
    }
    if leaf :| Within(steps, leaf) && leaf.stepType == "script" && InLanguage(leaf, language) {
      var i: nat, path :| Leads(steps, i, path, leaf);
      PathIsScript(steps, i, path, leaf, language);
    }
  }

  // ------------------------------------------------------------ what is asked of a plugin

  /** The key a step type has in the registry: dotted ones belong to a namespace, the others to everybody. */
  function KeyIn(namespace: string, written: string): string
  {
    if '.' in written && namespace != "" then namespace + "/" + written else written
  }

  ghost predicate Acts(m: Manifest, name: string)
  {
    exists action :: action in m.actions && action.name == name
  }

  datatype Requirement =
    | NamespaceIsName | NameIsName | NotYetThere | PassesOwnChecks | ContractsAreMet | AliasesAreNew | ImportsAreFree
    | ScriptsHaveRuntimes | ReferencesExist | NoCircle | DefinitionsAreNew | ImplementationsFit

  /** The order in which they are checked. */
  function Order(q: Requirement): nat
  {
    match q
    case NamespaceIsName => 0
    case NameIsName => 1
    case NotYetThere => 2
    case PassesOwnChecks => 3
    case ContractsAreMet => 4
    case AliasesAreNew => 5
    case ImportsAreFree => 6
    case ScriptsHaveRuntimes => 7
    case ReferencesExist => 8
    case NoCircle => 9
    case DefinitionsAreNew => 10
    case ImplementationsFit => 11
  }

  ghost predicate IsMet(q: Requirement, k: KernelState, namespace: string, m: Manifest, kernelOwned: bool)
  {
    var p := Qualify(namespace, m.name);
    match q
    case NamespaceIsName => namespace == "" || IsName(NamespaceName, namespace)
    case NameIsName => IsName(PluginName, m.name)
    case NotYetThere => p !in k.rows.manifests
    case PassesOwnChecks => k.ownChecks(namespace, m, kernelOwned)
    case ContractsAreMet =>
      forall role, key | role in m.roles && RoleMeans(k.spi, namespace, role, key) :: Fulfils(m, k.spi[key])
    case AliasesAreNew =>
      forall alias | alias in m.stepTypes :: KeyIn(namespace, alias.0) !in k.rows.aliases && Acts(m, alias.1)
    case ImportsAreFree => ClaimsAreFree(k.importOwners, p, namespace, m)
    case ScriptsHaveRuntimes =>
      forall action, language | action in m.actions && Scripts(action.steps, language) ::
        RuntimeFor(k.rows.stepTypeImpls, m, language)
    case ReferencesExist =>
      forall action, step, t | action in m.actions && step in action.steps && Refers(k.rows.stepTypeDefs, m, step, t) ::
        Exists(k.rows, p, m, t)
    case NoCircle => !exists round :: CallsInCircle(k.rows, p, m, round)
    case DefinitionsAreNew =>
      && (forall def | def in m.stepTypeDefs :: KeyIn(namespace, def.name) !in k.rows.stepTypeDefs)
      && forall i, j | 0 <= i < j < |m.stepTypeDefs| :: m.stepTypeDefs[i].name != m.stepTypeDefs[j].name
    case ImplementationsFit =>
      && (forall impl | impl in m.stepTypeImpls ::
            && (KeyIn(namespace, impl.stepType) in k.rows.stepTypeDefs
                || exists def :: def in m.stepTypeDefs && def.name == impl.stepType)
            && (impl.kind.Wasm? ==> (KeyIn(namespace, impl.stepType), impl.selector) !in k.rows.stepTypeImpls))
      && forall i, j | 0 <= i < j < |m.stepTypeImpls| ::
           (m.stepTypeImpls[i].stepType, m.stepTypeImpls[i].selector) !=
             (m.stepTypeImpls[j].stepType, m.stepTypeImpls[j].selector)
  }

  /** Every action the contract asks for is there. */
  ghost predicate Fulfils(m: Manifest, c: Contract)
  {
    forall asked | asked in c.actions && !asked.optional :: Acts(m, asked.name)
  }

  /** An action of the plugin itself, or of a registered one. */
  ghost predicate Exists(rows: Rows, p: string, m: Manifest, t: NodeRef)
  {
    if t.plugin == p then Acts(m, t.action)
    else t.plugin in rows.manifests && (t.plugin, t.action) in rows.modules
  }

  /** A runtime for the language is registered or comes with the manifest. */
  ghost predicate RuntimeFor(impls: map<ImplKey, (string, string)>, m: Manifest, language: string)
  {
    ("script", Some(language)) in impls
    || exists impl :: impl in m.stepTypeImpls && impl.stepType == "script" && impl.selector == Some(language)
  }

  /** The n-th claim of a linker import: implementations not in wasm and aliases claim one each, under these keys. */
  ghost predicate Claims(namespace: string, m: Manifest, n: int, key: string)
  {
    if 0 <= n < |m.stepTypeImpls| then
      !m.stepTypeImpls[n].kind.Wasm? && key == KeyIn(namespace, m.stepTypeImpls[n].stepType)
    else
      var i := n - |m.stepTypeImpls|;
      0 <= i < |m.stepTypes| && key == KeyIn(namespace, m.stepTypes[i].0)
  }

  /** No import is claimed by another plugin, or twice by this one. */
  ghost predicate ClaimsAreFree(owners: map<string, string>, p: string, namespace: string, m: Manifest)
  {
    && (forall n, key | Claims(namespace, m, n, key) && key in owners :: owners[key] == p)
    && forall n, n', key | Claims(namespace, m, n, key) && Claims(namespace, m, n', key) :: n == n'
  }

  /** What a refusal blames. */
  ghost predicate Blames(e: LoadError, q: Requirement, namespace: string, m: Manifest)
  {
    match q
    case NamespaceIsName => e.BadNamespace? && SaysTruly(e.reason, NamespaceName, namespace)
    case NameIsName => e.BadName? && SaysTruly(e.reason, PluginName, m.name)
    case NotYetThere => e == AlreadyRegistered(Qualify(namespace, m.name))
    case PassesOwnChecks => e == ChecksFailed
    case ContractsAreMet => e == MissingAction
    case AliasesAreNew => e == AliasRejected
    case ImportsAreFree => e == ImportRejected
    case ScriptsHaveRuntimes => e == NoScriptRuntime
    case ReferencesExist => e == UnknownReference
    case NoCircle => e == InvokeCycle
    case DefinitionsAreNew => e == DefRejected
    case ImplementationsFit => e == ImplRejected
  }

  // ------------------------------------------------------------ each requirement is what is checked

  lemma {:induction false} ActsIs(m: Manifest, name: string)
    ensures HasAction(m, name) <==> Acts(m, name)
  {
    if j :| 0 <= j < |m.actions| && m.actions[j].name == name {
      assert m.actions[j] in m.actions;
    }
  }

  lemma {:induction false} KeyIs(namespace: string, name: string, written: string)
    requires '/' !in name
    ensures StepTypeKey(Qualify(namespace, name), written) == KeyIn(namespace, written)
  {
    hide LastSeparator;
    QualifyThenSplit(namespace, name);
  }

  lemma {:induction false} ContractsAre(spi: map<string, Contract>, namespace: string, m: Manifest)
    ensures MeetsContracts(spi, namespace, m) <==>
      forall role, key | role in m.roles && RoleMeans(spi, namespace, role, key) :: Fulfils(m, spi[key])
  {
    hide AncestorNamespaces, NearestContract, RoleMeans, HasAction, Acts, Provides, Fulfils;
    var chain := AncestorNamespaces(namespace);
    forall role, key
      ensures RoleMeans(spi, namespace, role, key) <==> NearestContract(spi, chain, role) == Some(key)
      ensures RoleMeans(spi, namespace, role, key) ==> key in spi
      ensures key in spi ==> (Provides(m, spi[key]) <==> Fulfils(m, spi[key]))
    {
      RoleMeansIs(spi, namespace, role, key);
      if RoleMeans(spi, namespace, role, key) {
        MeansDefined(spi, namespace, role, key);
      }
      if key in spi {
        FulfilsIs(m, spi[key]);
      }
    }
  }

  lemma {:induction false} MeansDefined(spi: map<string, Contract>, namespace: string, role: string, key: string)
    requires RoleMeans(spi, namespace, role, key)
    ensures key in spi
  {
    hide AncestorNamespaces, Qualify;
  }

  lemma {:induction false} FulfilsIs(m: Manifest, c: Contract)
    ensures Provides(m, c) <==> Fulfils(m, c)
  {
    hide HasAction, Acts;
    forall name
      ensures HasAction(m, name) <==> Acts(m, name)
    {
      ActsIs(m, name);
    }
    if Fulfils(m, c) {
      assert forall i | 0 <= i < |c.actions| :: c.actions[i] in c.actions;
    }
  }

  lemma {:induction false} AliasesAre(aliases: map<string, (string, string)>, namespace: string, m: Manifest)
    requires '/' !in m.name
    ensures AliasesSound(aliases, Qualify(namespace, m.name), m) <==>
      forall alias | alias in m.stepTypes :: KeyIn(namespace, alias.0) !in aliases && Acts(m, alias.1)
  {
    hide StepTypeKey, KeyIn, HasAction, Acts, Qualify;
    var p := Qualify(namespace, m.name);
    forall alias | alias in m.stepTypes
      ensures StepTypeKey(p, alias.0) == KeyIn(namespace, alias.0) && (HasAction(m, alias.1) <==> Acts(m, alias.1))
    {
      KeyIs(namespace, m.name, alias.0);
      ActsIs(m, alias.1);
    }
    assert forall i | 0 <= i < |m.stepTypes| :: m.stepTypes[i] in m.stepTypes;
  }

  lemma {:induction false} RuntimeIs(impls: map<ImplKey, (string, string)>, m: Manifest, language: string)
    ensures Runs(impls, m, language) <==> RuntimeFor(impls, m, language)
  {
    assert forall i | 0 <= i < |m.stepTypeImpls| :: m.stepTypeImpls[i] in m.stepTypeImpls;
  }

  lemma {:induction false} ScriptsAre(impls: map<ImplKey, (string, string)>, m: Manifest)
    ensures ScriptsRun(impls, m) <==>
      forall action, language | action in m.actions && Scripts(action.steps, language) :: RuntimeFor(impls, m, language)
  {
    hide Scripts, Languages, Runs, RuntimeFor;
    forall action, language | action in m.actions
      ensures language in Languages(action.steps) <==> Scripts(action.steps, language)
      ensures Runs(impls, m, language) <==> RuntimeFor(impls, m, language)
    {
      LanguagesAre(action.steps, language);
      RuntimeIs(impls, m, language);
    }
    assert forall i | 0 <= i < |m.actions| :: m.actions[i] in m.actions;
  }

  lemma {:induction false} ReferencesAre(rows: Rows, p: string, m: Manifest)
    ensures ReferencesKnown(rows, p, m) <==>
      forall action, step, t | action in m.actions && step in action.steps && Refers(rows.stepTypeDefs, m, step, t) ::
        Exists(rows, p, m, t)
  {
    hide Refers, StepTargets, Known, Exists;
    forall action, t | action in m.actions
      ensures t in StepTargets(rows.stepTypeDefs, m, action.steps) <==>
        exists step :: step in action.steps && Refers(rows.stepTypeDefs, m, step, t)
      ensures Known(rows, p, m, t) <==> Exists(rows, p, m, t)
    {
      StepTargetsAre(rows.stepTypeDefs, m, action.steps, t);
      KnownIs(rows, p, m, t);
    }
    if ReferencesKnown(rows, p, m) {
      forall action, step, t | action in m.actions && step in action.steps && Refers(rows.stepTypeDefs, m, step, t)
        ensures Exists(rows, p, m, t)
      {
        var i :| 0 <= i < |m.actions| && m.actions[i] == action;
      }
    }
    assert forall i | 0 <= i < |m.actions| :: m.actions[i] in m.actions;
  }

  lemma {:induction false} KnownIs(rows: Rows, p: string, m: Manifest, t: NodeRef)
    ensures Known(rows, p, m, t) <==> Exists(rows, p, m, t)
  {
    ActsIs(m, t.action);
  }

  lemma {:induction false} DefinitionsAre(defs: map<string, (string, StepTypeDef)>, namespace: string, m: Manifest)
    requires '/' !in m.name
    ensures DefsFree(defs, Qualify(namespace, m.name), m) <==>
      && (forall def | def in m.stepTypeDefs :: KeyIn(namespace, def.name) !in defs)
      && forall i, j | 0 <= i < j < |m.stepTypeDefs| :: m.stepTypeDefs[i].name != m.stepTypeDefs[j].name
  {
    hide StepTypeKey, KeyIn, Qualify;
    forall def | def in m.stepTypeDefs
      ensures StepTypeKey(Qualify(namespace, m.name), def.name) == KeyIn(namespace, def.name)
    {
      KeyIs(namespace, m.name, def.name);
    }
    assert forall i | 0 <= i < |m.stepTypeDefs| :: m.stepTypeDefs[i] in m.stepTypeDefs;
  }

  lemma {:induction false} ImplementationsAre(rows: Rows, namespace: string, m: Manifest)
    requires '/' !in m.name
    ensures ImplsDefined(rows.stepTypeDefs, Qualify(namespace, m.name), m) <==>
      forall impl | impl in m.stepTypeImpls ::
        KeyIn(namespace, impl.stepType) in rows.stepTypeDefs
        || exists def :: def in m.stepTypeDefs && def.name == impl.stepType
    ensures ImplsFree(rows.stepTypeImpls, Qualify(namespace, m.name), m) <==>
      && (forall impl | impl in m.stepTypeImpls && impl.kind.Wasm? ::
            (KeyIn(namespace, impl.stepType), impl.selector) !in rows.stepTypeImpls)
      && forall i, j | 0 <= i < j < |m.stepTypeImpls| ::
           (m.stepTypeImpls[i].stepType, m.stepTypeImpls[i].selector) !=
             (m.stepTypeImpls[j].stepType, m.stepTypeImpls[j].selector)
  {
    hide StepTypeKey, KeyIn, Qualify, LocalDef;
    forall impl | impl in m.stepTypeImpls
      ensures StepTypeKey(Qualify(namespace, m.name), impl.stepType) == KeyIn(namespace, impl.stepType)
      ensures LocalDef(m.stepTypeDefs, impl.stepType).Some? <==>
        exists def :: def in m.stepTypeDefs && def.name == impl.stepType
    {
      KeyIs(namespace, m.name, impl.stepType);
      LocalDefIs(m.stepTypeDefs, impl.stepType);
      assert forall i | 0 <= i < |m.stepTypeDefs| :: m.stepTypeDefs[i] in m.stepTypeDefs;
    }
    assert forall i | 0 <= i < |m.stepTypeImpls| :: m.stepTypeImpls[i] in m.stepTypeImpls;
  }

  lemma {:induction false} ImplImportsAre(impls: seq<StepTypeImpl>) returns (places: seq<nat>)
    ensures |places| == |ImplImports(impls)|
    ensures forall k | 0 <= k < |places| ::
      places[k] < |impls| && !impls[places[k]].kind.Wasm? && ImplImports(impls)[k] == impls[places[k]].stepType
    ensures forall n: nat | n < |impls| && !impls[n].kind.Wasm? :: n in places
    ensures forall j, k | 0 <= j < k < |places| :: places[j] != places[k]
  {
    if impls == [] {
      return [];
    }
    var last := |impls| - 1;
    places := ImplImportsAre(impls[..last]);
    if !impls[last].kind.Wasm? {
      places := places + [last];
    }
  }

  /** Where each import key comes from, and that each claim has its key. */
  lemma {:induction false} ImportKeysAre(namespace: string, m: Manifest) returns (places: seq<nat>)
    requires '/' !in m.name
    ensures |places| == |ImportKeys(Qualify(namespace, m.name), m)|
    ensures forall k | 0 <= k < |places| ::
      Claims(namespace, m, places[k], ImportKeys(Qualify(namespace, m.name), m)[k])
    ensures forall n, key | Claims(namespace, m, n, key) :: n in places
    ensures forall j, k | 0 <= j < k < |places| :: places[j] != places[k]
  {
    hide StepTypeKey, KeyIn, Qualify, ImplImports;
    var p, impls := Qualify(namespace, m.name), ImplImports(m.stepTypeImpls);
    forall written
      ensures StepTypeKey(p, written) == KeyIn(namespace, written)
    {
      KeyIs(namespace, m.name, written);
    }
    var first := ImplImportsAre(m.stepTypeImpls);
    var second: seq<nat> := seq(|m.stepTypes|, i requires 0 <= i => |m.stepTypeImpls| + i);
    places := first + second;
    forall n, key | Claims(namespace, m, n, key)
      ensures n in places
    {
      if n >= |m.stepTypeImpls| {
        assert second[n - |m.stepTypeImpls|] == n;
      }
    }
  }

  lemma {:induction false} OneKeyEach(namespace: string, m: Manifest, n: int, key: string, other: string)
    requires Claims(namespace, m, n, key) && Claims(namespace, m, n, other)
    ensures key == other
  {
  }

  lemma {:induction false} ImportsAre(owners: map<string, string>, namespace: string, m: Manifest)
    requires '/' !in m.name
    ensures var p := Qualify(namespace, m.name);
      ImportsFree(owners, p, ImportKeys(p, m)) <==> ClaimsAreFree(owners, p, namespace, m)
  {
    hide Claims, ImportKeys, Qualify;
    var p := Qualify(namespace, m.name);
    var keys := ImportKeys(p, m);
    var places := ImportKeysAre(namespace, m);
    forall n, key | Claims(namespace, m, n, key)
      ensures exists k :: 0 <= k < |keys| && places[k] == n && keys[k] == key
    {
      var k :| 0 <= k < |places| && places[k] == n;
      OneKeyEach(namespace, m, n, key, keys[k]);
    }
    if ImportsFree(owners, p, keys) {
      forall n, n', key | Claims(namespace, m, n, key) && Claims(namespace, m, n', key)
        ensures n == n'
      {
        var k :| 0 <= k < |keys| && places[k] == n && keys[k] == key;
        var k' :| 0 <= k' < |keys| && places[k'] == n' && keys[k'] == key;
      }
    }
  }

  // ------------------------------------------------------------ the whole registration

  /** Each requirement is met exactly when its check passes. */
  ghost predicate Passes(q: Requirement, k: KernelState, namespace: string, m: Manifest, kernelOwned: bool)
  {
    var p := Qualify(namespace, m.name);
    match q
    case NamespaceIsName => ValidateNamespace(namespace).Ok?
    case NameIsName => ValidateName(PluginName, m.name).Ok?
    case NotYetThere => p !in k.rows.manifests
    case PassesOwnChecks => k.ownChecks(namespace, m, kernelOwned)
    case ContractsAreMet => MeetsContracts(k.spi, namespace, m)
    case AliasesAreNew => AliasesSound(k.rows.aliases, p, m)
    case ImportsAreFree => ImportsFree(k.importOwners, p, ImportKeys(p, m))
    case ScriptsHaveRuntimes => ScriptsRun(k.rows.stepTypeImpls, m)
    case ReferencesExist => ReferencesKnown(k.rows, p, m)
    case NoCircle => Acyclic(k.rows.invokeEdges + NewEdges(k.rows, p, m))
    case DefinitionsAreNew => DefsFree(k.rows.stepTypeDefs, p, m)
    case ImplementationsFit => ImplsDefined(k.rows.stepTypeDefs, p, m) && ImplsFree(k.rows.stepTypeImpls, p, m)
  }

  lemma {:induction false} MetIs(q: Requirement, k: KernelState, namespace: string, m: Manifest, kernelOwned: bool)
    requires q.NamespaceIsName? || q.NameIsName? || '/' !in m.name
    ensures IsMet(q, k, namespace, m, kernelOwned) <==> Passes(q, k, namespace, m, kernelOwned)
  {
    hide Qualify, IsName, ValidateName, RoleMeans, Fulfils, KeyIn, Acts, ClaimsAreFree, Scripts, RuntimeFor, Refers,
      Exists, CallsInCircle, MeetsContracts, AliasesSound, ImportsFree, ScriptsRun, ReferencesKnown, Acyclic, DefsFree,
      ImplsDefined, ImplsFree;
    var p := Qualify(namespace, m.name);
    match q
    case NamespaceIsName => AcceptsExactlyNames(NamespaceName, namespace);
    case NameIsName => AcceptsExactlyNames(PluginName, m.name);
    case NotYetThere =>
    case PassesOwnChecks =>
    case ContractsAreMet => ContractsAre(k.spi, namespace, m);
    case AliasesAreNew => AliasesAre(k.rows.aliases, namespace, m);
    case ImportsAreFree => ImportsAre(k.importOwners, namespace, m);
    case ScriptsHaveRuntimes => ScriptsAre(k.rows.stepTypeImpls, m);
    case ReferencesExist => ReferencesAre(k.rows, p, m);
    case NoCircle => AcyclicExactlyWhen(k.rows, p, m);
    case DefinitionsAreNew => DefinitionsAre(k.rows.stepTypeDefs, namespace, m);
    case ImplementationsFit => ImplementationsAre(k.rows, namespace, m);
  }

  /** The first requirement that is not met. */
  ghost predicate FirstUnmet(q: Requirement, k: KernelState, namespace: string, m: Manifest, kernelOwned: bool)
  {
    && !IsMet(q, k, namespace, m, kernelOwned)
    && forall earlier | Order(earlier) < Order(q) :: IsMet(earlier, k, namespace, m, kernelOwned)
  }

  function Blamed(e: LoadError): Requirement
  {
    match e
    case BadNamespace(_) => NamespaceIsName
    case BadName(_) => NameIsName
    case AlreadyRegistered(_) => NotYetThere
    case ChecksFailed => PassesOwnChecks
    case MissingAction => ContractsAreMet
    case AliasRejected => AliasesAreNew
    case ImportRejected => ImportsAreFree
    case NoScriptRuntime => ScriptsHaveRuntimes
    case UnknownReference => ReferencesExist
    case InvokeCycle => NoCircle
    case DefRejected => DefinitionsAreNew
    case _ => ImplementationsFit
  }

  lemma {:induction false} RejectedAtFirstFailure(k: KernelState, namespace: string, m: Manifest, kernelOwned: bool)
    ensures var r := Rejection(k, namespace, m, kernelOwned);
      && (r.None? ==> forall any :: Passes(any, k, namespace, m, kernelOwned))
      && (r.Some? ==> !Passes(Blamed(r.value), k, namespace, m, kernelOwned))
      && (r.Some? ==>
            forall earlier | Order(earlier) < Order(Blamed(r.value)) :: Passes(earlier, k, namespace, m, kernelOwned))
  {
    hide Qualify, ValidateName, MeetsContracts, AliasesSound, ImportsFree, ScriptsRun, ReferencesKnown, Acyclic,
      DefsFree, ImplsDefined, ImplsFree, NewEdges, ImportKeys;
  }

  lemma {:induction false} RejectionBlames(k: KernelState, namespace: string, m: Manifest, kernelOwned: bool)
    ensures var r := Rejection(k, namespace, m, kernelOwned);
      r.Some? ==> Blames(r.value, Blamed(r.value), namespace, m)
  {
    hide Qualify, ValidateName, SaysTruly, MeetsContracts, AliasesSound, ImportsFree, ScriptsRun, ReferencesKnown,
      Acyclic, DefsFree, ImplsDefined, ImplsFree, NewEdges, ImportKeys;
    if namespace != "" && ValidateName(NamespaceName, namespace).Err? {
      RefusalSaysTruly(NamespaceName, namespace);
    } else if ValidateName(PluginName, m.name).Err? {
      RefusalSaysTruly(PluginName, m.name);
    }
  }

  /**
   * A plugin is registered exactly when all twelve requirements are met; otherwise the refusal blames the first that is
   * not.
   */
  lemma {:induction false} RegisteredExactlyWhen(k: KernelState, namespace: string, m: Manifest, kernelOwned: bool)
    ensures Rejection(k, namespace, m, kernelOwned).None? <==> forall q :: IsMet(q, k, namespace, m, kernelOwned)
    ensures Rejection(k, namespace, m, kernelOwned).Some? ==> exists q ::
      FirstUnmet(q, k, namespace, m, kernelOwned) &&
        Blames(Rejection(k, namespace, m, kernelOwned).value, q, namespace, m)
  {
    hide IsMet, Passes, Rejection, Blames;
    RejectedAtFirstFailure(k, namespace, m, kernelOwned);
    RejectionBlames(k, namespace, m, kernelOwned);
    MetIs(NamespaceIsName, k, namespace, m, kernelOwned);
    MetIs(NameIsName, k, namespace, m, kernelOwned);
    if Passes(NameIsName, k, namespace, m, kernelOwned) {
      PassedName(k, namespace, m, kernelOwned);
      forall any
        ensures IsMet(any, k, namespace, m, kernelOwned) <==> Passes(any, k, namespace, m, kernelOwned)
      {
        MetIs(any, k, namespace, m, kernelOwned);
      }
    }
    if Rejection(k, namespace, m, kernelOwned).Some? {
      assert FirstUnmet(Blamed(Rejection(k, namespace, m, kernelOwned).value), k, namespace, m, kernelOwned);
    }
  }

  lemma {:induction false} PassedName(k: KernelState, namespace: string, m: Manifest, kernelOwned: bool)
    requires Passes(NameIsName, k, namespace, m, kernelOwned)
    ensures '/' !in m.name
  {
    AcceptsExactlyNames(PluginName, m.name);
  }
}

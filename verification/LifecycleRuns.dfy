/** Runs in which the manifest lifecycle does not do what its documentation promises. */
module LifecycleRuns {
  import opened Admission
  import opened Identity
  import opened Indices
  import opened InvokeGraph
  import opened Lifecycle
  import opened LifecycleLaws
  import opened Registry
  import opened Rollback
  import opened Wrappers

  // ------------------------------------------------------------ a reload that destroys its plugin

  /** `b` has a step of a type nobody provides yet. */
  function Early(): Manifest
  {
    Manifest("b", [], [ActionDef("go", [Step("a.go", map[], [])], [])], [], [], [], [], [])
  }

  /** `a` provides that step type as an alias of an action that invokes `b`. */
  function Late(): Manifest
  {
    Manifest("a", [], [ActionDef("run", [Step("invoke", map["plugin" := "b", "action" := "go"], [])], [])],
      [("a.go", "run")], [], [], [], [])
  }

  function Onward(): InvokeEdge
  {
    InvokeEdge(NodeRef("a", "run"), NodeRef("b", "go"))
  }

  function Back(): InvokeEdge
  {
    InvokeEdge(NodeRef("b", "go"), NodeRef("a", "run"))
  }

  lemma {:induction false} PlainName(name: string)
    requires |name| == 1 && IsLetter(name[0])
    ensures ValidateName(PluginName, name).Ok? && Qualify("", name) == name
    ensures NamespaceOf(name) == "" && AncestorNamespaces(NamespaceOf(name)) == [""]
  {
    AcceptsExactlyNames(PluginName, name);
    assert NAMESPACE_SEPARATOR !in name;
  }

  lemma {:induction false} AliasKey(p: string)
    requires |p| == 1 && IsLetter(p[0])
    ensures StepTypeKey(p, "a.go") == "a.go" && STEP_TYPE_SEPARATOR in "a.go"
  {
    PlainName(p);
    assert "a.go"[1] == STEP_TYPE_SEPARATOR;
  }

  /** With no alias known, the step of `b` has no edge; with the alias of `a` it leads to `a`. */
  lemma {:induction false} EdgesOfEarly(rows: Rows)
    requires rows.stepTypeDefs == map[]
    ensures NewEdges(rows, "b", Early()) ==
      if "a.go" in rows.aliases
      then [InvokeEdge(NodeRef("b", "go"), NodeRef(rows.aliases["a.go"].0, rows.aliases["a.go"].1))] else []
    ensures ReferencesKnown(rows, "b", Early()) && ScriptsRun(rows.stepTypeImpls, Early())
  {
    PlainName("b");
    AliasKey("b");
    var m, step := Early(), Step("a.go", map[], []);
    var chain := [""];
    assert chain[1..] == [] && Qualify("", "a.go") == "a.go";
    assert ChainAlias(rows.aliases, chain[1..], "a.go") == None;
    OneStep(rows, "b", m, "go", step);
  }

  lemma {:induction false} EdgesOfLate(rows: Rows)
    requires rows.stepTypeDefs == map[]
    ensures NewEdges(rows, "a", Late()) == [Onward()]
    ensures ReferencesKnown(rows, "a", Late()) && ScriptsRun(rows.stepTypeImpls, Late())
  {
    OneStep(rows, "a", Late(), "run", Step("invoke", map["plugin" := "b", "action" := "go"], []));
  }

  /** A manifest with one action of one plain step, when no step type is defined anywhere. */
  lemma {:induction false} OneStep(rows: Rows, p: string, m: Manifest, action: string, step: Step)
    requires rows.stepTypeDefs == map[] && m.stepTypeDefs == [] && m.actions == [ActionDef(action, [step], [])]
    requires step.bodies == [] && step.stepType != "script"
    ensures NewEdges(rows, p, m) == EdgesOfStep(rows.aliases, p, m, action, step)
    ensures ReferencesKnown(rows, p, m) && ScriptsRun(rows.stepTypeImpls, m)
  {
    hide EdgesOfStep;
    var steps := [step];
    assert steps[1..] == [] && m.actions[1..] == [];
    assert StepEdges(rows.aliases, p, m, action, steps[1..]) == [] &&
      ActionEdges(rows.aliases, p, m, m.actions[1..]) == [];
    assert StepTargets(rows.stepTypeDefs, m, steps[1..]) == [] &&
      DeclaredEdges(rows.stepTypeDefs, p, m, m.actions[1..]) == [];
    assert BodyLanguages(step.bodies) == {} && Languages(steps[1..]) == {};
    assert StepTargets(rows.stepTypeDefs, m, steps) == [] && Languages(steps) == {};
  }

  lemma {:induction false} OneWayIsAcyclic()
    ensures Acyclic([]) && Acyclic([Onward()]) && !Acyclic([Onward(), Back()])
  {
    forall p: seq<NodeRef>
      ensures !IsCycle([], p) && !IsCycle([Onward()], p)
    {
      assert |p| >= 2 ==> InvokeEdge(p[1 - 1], p[1]) !in [];
      assert |p| >= 2 && p[|p| - 1] == p[0] && InvokeEdge(p[0], p[1]) == Onward() ==>
        InvokeEdge(p[|p| - 2], p[|p| - 1]) != Onward();
    }
    var around := [NodeRef("a", "run"), NodeRef("b", "go"), NodeRef("a", "run")];
    assert IsCycle([Onward(), Back()], around);
  }

  /** A kernel that checks nothing more than the modelled checks. */
  function Lenient(): OwnChecks
  {
    (namespace, m, kernelOwned) => true
  }

  lemma {:induction false} EarlyRegisters()
    ensures Rejection(Start(Lenient()), "", Early(), false).None?
    ensures var after := Registered(Start(Lenient()), "", Early());
      && after.rows.aliases == map[] && after.rows.invokeEdges == [] && after.importOwners == map[]
      && after.rows.stepTypeDefs == map[] && after.rows.manifests.Keys == {"b"}
  {
    hide ValidateName, AncestorNamespaces, LastSeparator, NewEdges, Acyclic, ReferencesKnown, ScriptsRun;
    PlainName("b");
    EdgesOfEarly(NoRows());
    OneWayIsAcyclic();
    var m := Early();
    assert [] + NewEdges(NoRows(), "b", m) == [];
    assert ImportKeys("b", m) == [];
    assert AliasRows("b", m.stepTypes) == [] && DefRows("b", m.stepTypeDefs) == [];
  }

  lemma {:induction false} LateIsAccepted(k: KernelState)
    requires k.ownChecks == Lenient() && k.rows.aliases == map[] && k.rows.stepTypeDefs == map[] &&
      k.rows.invokeEdges == []
    requires k.importOwners == map[] && "a" !in k.rows.manifests
    ensures Rejection(k, "", Late(), false).None?
  {
    hide ValidateName, AncestorNamespaces, LastSeparator, NewEdges, Acyclic, StepTypeKey, ReferencesKnown, ScriptsRun;
    PlainName("a");
    AliasKey("a");
    EdgesOfLate(k.rows);
    OneWayIsAcyclic();
    var m := Late();
    assert m.actions[0].name == m.stepTypes[0].1;
    assert [] + NewEdges(k.rows, "a", m) == [Onward()];
  }

  lemma {:induction false} LateRegisters(k: KernelState)
    requires k.rows.aliases == map[] && k.rows.stepTypeDefs == map[] && k.rows.invokeEdges == []
    ensures var after := Registered(k, "", Late());
      after.rows.aliases == map["a.go" := ("a", "run")] && after.rows.stepTypeDefs == map[] &&
        after.rows.invokeEdges == [Onward()]
  {
    hide ValidateName, AncestorNamespaces, LastSeparator, NewEdges, StepTypeKey, RoleKeysFor, ImportKeys, SubscribeAll,
      PushRoles;
    PlainName("a");
    AliasKey("a");
    EdgesOfLate(k.rows);
    var m := Late();
    assert [] + NewEdges(k.rows, "a", m) == [Onward()];
    var rows := AliasRows("a", m.stepTypes);
    assert rows == [("a.go", ("a", "run"))] && rows[..0] == [];
    assert Insert(map[], rows[..0]) == map[];
    assert DefRows("a", m.stepTypeDefs) == [];
  }

  /** Loaded in this order, the reload of `b` finds its way back closed by what was loaded in between. */
  function LoadBoth(): seq<Op>
  {
    [DoLoad("", PluginManifest(Early()), false), DoLoad("", PluginManifest(Late()), false)]
  }

  lemma {:induction false} BothLoad()
    ensures var k := Run(Lenient(), LoadBoth());
      && k.loaded.Keys == {1, 2} && k.loaded[1] == Record("b", "", Plugin(Early()), false)
      && k.rows.aliases == map["a.go" := ("a", "run")] && k.rows.stepTypeDefs == map[] &&
        k.rows.invokeEdges == [Onward()]
  {
    hide Rejection, Registered, ValidateName, ValidateNamespace, AncestorNamespaces, LastSeparator, Early, Late, Onward,
      Lenient;
    var start, one := Start(Lenient()), LoadBoth()[..1];
    assert one[..0] == [] && LoadBoth()[0] == one[0];
    assert After(start, []) == start;
    EarlyRegisters();
    EarlyAndLate();
    RegisteredFrame(start, "", Early());
    var k1 := After(start, one);
    assert k1 == Load(start, "", PluginManifest(Early()), false).value.0;
    assert k1.rows == Registered(start, "", Early()).rows;
    LateIsAccepted(k1);
    LateRegisters(k1);
    RegisteredFrame(k1, "", Late());
    assert Run(Lenient(), LoadBoth()) == Apply(k1, LoadBoth()[1]);
  }

  lemma {:induction false} EarlyAndLate()
    ensures Qualify("", Early().name) == "b" && Qualify("", Late().name) == "a"
  {
  }

  lemma {:induction false} StillThere(r: Rows)
    requires r.aliases == map["a.go" := ("a", "run")] && r.stepTypeDefs == map[] && r.invokeEdges == [Onward()]
    ensures var rows := Scrubbed(r, "b");
      rows.aliases == map["a.go" := ("a", "run")] && rows.stepTypeDefs == map[] && rows.invokeEdges == [Onward()]
  {
    hide Sift, Early;
    assert [Onward()][..0] == [];
    assert Keep([Onward()][..0], EdgeOwner, "b") == [];
    assert EdgeOwner(Onward()) == "a";
  }

  /**
   * The promise that a reload leaves the handle on the old manifest fails: a malformed replacement takes a healthy
   * plugin down when an alias loaded since turns its own steps into a cycle.
   */
  lemma {:induction false} ReloadCanDestroy()
    ensures var k := Run(Lenient(), LoadBoth());
      var (after, answer) := Reload(k, 1, Unrecognised);
      && 1 in k.loaded && "b" in k.rows.manifests
      && answer == Err(RollbackFailed) && 1 !in after.loaded && "b" !in after.rows.manifests
  {
    hide Inv, Reflected, Removed, Reload, Apply, Acyclic, NewEdges, Restored, Lenient;
    var k := Run(Lenient(), LoadBoth());
    BothLoad();
    EveryStateIsSound(Lenient(), LoadBoth());
    HandleIssued(k, 1);
    RefusedReload(Lenient(), LoadBoth(), 1, Unrecognised);
    StillThere(k.rows);
    var rows := Scrubbed(k.rows, "b");
    EdgesOfEarly(rows);
    OneWayIsAcyclic();
    assert rows.invokeEdges + [Back()] == [Onward(), Back()];
  }

  // ------------------------------------------------------------ a contract that goes back

  function Plain(text: string): Classified
  {
    SpiDefinition("R", Contract(text, []))
  }

  /** One contract loaded twice, then replaced through the first handle. */
  function ShareAndReplace(): seq<Op>
  {
    [DoLoad("", Plain("old"), false), DoLoad("", Plain("old"), false), DoReload(1, Plain("new"))]
  }

  lemma {:induction false} AfterThree(k: KernelState, a: Op, b: Op, c: Op)
    ensures After(k, [a, b, c]) == Apply(Apply(Apply(k, a), b), c)
  {
    hide Apply;
    var ops := [a, b, c];
    assert ops[..2] == [a, b] && [a, b][..1] == [a] && [a][..0] == [];
    assert After(k, [a]) == Apply(k, a);
    assert After(k, [a, b]) == Apply(After(k, [a]), b);
  }

  lemma {:induction false} Shared(ownChecks: OwnChecks)
    ensures var load := DoLoad("", Plain("old"), false);
      var first, k := Contract("old", []), Apply(Apply(Start(ownChecks), load), load);
      && k.loaded == map[1 := Record("R", "", SpiDef(first), false), 2 := Record("R", "", SpiDef(first), false)]
      && k.spi == map["R" := first] && k.roleUsers == map[]
  {
    hide Rejection, Registered;
  }

  lemma {:induction false} SharedReplaced(ownChecks: OwnChecks)
    ensures var k := Run(ownChecks, ShareAndReplace());
      && k.loaded.Keys == {1, 2} && k.loaded[2] == Record("R", "", SpiDef(Contract("old", [])), false)
      && k.spi == map["R" := Contract("new", [])] && k.roleUsers == map[]
  {
    hide Rejection, Registered, RollBack, After;
    var load := DoLoad("", Plain("old"), false);
    AfterThree(Start(ownChecks), load, load, DoReload(1, Plain("new")));
    Shared(ownChecks);
    var k := Apply(Apply(Start(ownChecks), load), load);
    assert WithoutUser(map[], 1) == map[];
    assert (k.spi - {"R"})["R" := Contract("new", [])] == map["R" := Contract("new", [])];
  }

  /** A malformed replacement through one handle of a shared contract undoes the reload made through the other. */
  lemma {:induction false} ReloadCanRevert(ownChecks: OwnChecks)
    ensures var k := Run(ownChecks, ShareAndReplace());
      var (after, answer) := Reload(k, 2, Unrecognised);
      && answer == Err(NotRecognised)
      && k.spi == map["R" := Contract("new", [])] && after.spi == map["R" := Contract("old", [])]
  {
    hide Run;
    SharedReplaced(ownChecks);
    var k := Run(ownChecks, ShareAndReplace());
    assert (k.spi - {"R"})["R" := Contract("old", [])] == map["R" := Contract("old", [])];
  }

  // ------------------------------------------------------------ contracts that do not come and go

  /** A contract loaded a second time and unloaded through the second handle is gone for the first one as well. */
  lemma {:induction false} SharedContractIsTaken(ownChecks: OwnChecks)
    ensures var k := Run(ownChecks, [DoLoad("", Plain("old"), false)]);
      var again := Load(k, "", Plain("old"), false);
      && k.spi == map["R" := Contract("old", [])] && again.Ok? && again.value.1 == 2
      && Unload(again.value.0, 2).1.Ok? && Unload(again.value.0, 2).0.spi == map[]
  {
    hide Rejection, Registered;
    var start, load := Start(ownChecks), DoLoad("", Plain("old"), false);
    assert [load][..0] == [];
    assert After(start, [load]) == Apply(start, load);
    assert map["R" := Contract("old", [])] - {"R"} == map[];
  }

  /** The first handle is still loaded, and its unload then reports the index out of step. */
  lemma {:induction false} SharedContractDrifts(ownChecks: OwnChecks)
    ensures var load := DoLoad("", Plain("old"), false);
      var k := Run(ownChecks, [load, load, DoUnload(2)]);
      1 in k.loaded && Unload(k, 1).1 == Err(Drift)
  {
    hide Run, Rejection, Registered, After;
    var load := DoLoad("", Plain("old"), false);
    AfterThree(Start(ownChecks), load, load, DoUnload(2));
    RunIs(ownChecks, [load, load, DoUnload(2)]);
    Shared(ownChecks);
    assert map["R" := Contract("old", [])] - {"R"} == map[];
    assert WithoutUser(map[], 2) == map[];
  }

  lemma {:induction false} RunIs(ownChecks: OwnChecks, ops: seq<Op>)
    ensures Run(ownChecks, ops) == After(Start(ownChecks), ops)
  {
  }

  /** It declares a role for which there is no contract yet. */
  function Claimant(): Manifest
  {
    Manifest("b", ["R"], [], [], [], [], [], [])
  }

  lemma {:induction false} ClaimantRegisters()
    ensures Rejection(Start(Lenient()), "", Claimant(), false).None? && Qualify("", Claimant().name) == "b"
    ensures RoleKeysFor(map[], "", Claimant().roles) == ["R"]
  {
    hide ValidateName, AncestorNamespaces, LastSeparator, Acyclic;
    PlainName("b");
    OneWayIsAcyclic();
    var m, roles := Claimant(), ["R"];
    assert roles[..0] == [] && Qualify("", "R") == "R";
    assert AncestorNamespaces("") == [""] && [""][1..] == [];
    assert NearestContract(map[], [""][1..], "R") == None;
    assert RoleKeysFor(map[], "", roles[..0]) == [];
    assert ImportKeys("b", m) == [] && NewEdges(NoRows(), "b", m) == [];
  }

  lemma {:induction false} OneUser()
    ensures WithUser(map[], ["R"], 1) == map["R" := {1}]
  {
    forall key
      ensures key in WithUser(map[], ["R"], 1) <==> key == "R"
      ensures UsersOf(WithUser(map[], ["R"], 1), key) == if key == "R" then {1} else {}
    {
      WithUserIs(map[], ["R"], 1, key);
    }
  }

  lemma {:induction false} ClaimantLoads()
    ensures var k := Run(Lenient(), [DoLoad("", PluginManifest(Claimant()), false)]);
      && k.spi == map[] && k.loaded == map[1 := Record("b", "", Plugin(Claimant()), false)] && k.nextId == 2
      && k.roleUsers == map["R" := {1}]
  {
    hide Rejection, Registered, RoleKeysFor, Claimant, Lenient;
    var start, load := Start(Lenient()), DoLoad("", PluginManifest(Claimant()), false);
    ClaimantRegisters();
    RegisteredFrame(start, "", Claimant());
    assert [load][..0] == [];
    assert After(start, [load]) == Apply(start, load);
    OneUser();
  }

  /** A contract loaded after a plugin claimed its role cannot be unloaded again, although its key was free. */
  lemma {:induction false} ClaimedBeforeLoaded()
    ensures var k := Run(Lenient(), [DoLoad("", PluginManifest(Claimant()), false)]);
      var loaded := Load(k, "", Plain("new"), false);
      && "R" !in k.spi && loaded.Ok? && loaded.value.1 == 2
      && Unload(loaded.value.0, 2) == (loaded.value.0, Err(StillClaimed))
  {
    hide Run, Rejection, Registered;
    ClaimantLoads();
  }

  /** The role's contract comes after the plugin, and asks for an action it does not have. */
  function ClaimThenRequire(): seq<Op>
  {
    [DoLoad("", PluginManifest(Claimant()), false), DoLoad("", SpiDefinition("R", Demanding()), false)]
  }

  function Demanding(): Contract
  {
    Contract("new", [ContractAction("go", false)])
  }

  lemma {:induction false} RequiredLate()
    ensures var k := Run(Lenient(), ClaimThenRequire());
      && 1 in k.loaded && k.loaded[1] == Record("b", "", Plugin(Claimant()), false) && k.spi == map["R" := Demanding()]
  {
    hide Rejection, Registered, RoleKeysFor, Claimant, Demanding, Lenient;
    var ops, one := ClaimThenRequire(), [DoLoad("", PluginManifest(Claimant()), false)];
    assert ops[..1] == one;
    ClaimantLoads();
    assert Run(Lenient(), ops) == Apply(Run(Lenient(), one), ops[1]);
  }

  lemma {:induction false} ClaimantFallsShort()
    ensures !MeetsContracts(map["R" := Demanding()], "", Claimant())
  {
    var spi, m := map["R" := Demanding()], Claimant();
    assert AncestorNamespaces("") == [""] && Qualify("", "R") == "R";
    assert NearestContract(spi, AncestorNamespaces(""), "R") == Some("R");
    assert !HasAction(m, Demanding().actions[0].name);
    assert !Provides(m, spi["R"]);
    assert m.roles[0] == "R";
  }

  /** No cycle is needed to lose a plugin: a contract loaded since then is enough. */
  lemma {:induction false} ContractCanDestroy()
    ensures var k := Run(Lenient(), ClaimThenRequire());
      var (after, answer) := Reload(k, 1, Unrecognised);
      1 in k.loaded && answer == Err(RollbackFailed) && 1 !in after.loaded
  {
    hide Inv, Reflected, Removed, Reload, After, Acyclic, NewEdges, Restored, Lenient, MeetsContracts, Claimant,
      Demanding;
    RequiredLate();
    ClaimantFallsShort();
    EveryStateIsSound(Lenient(), ClaimThenRequire());
    HandleIssued(Run(Lenient(), ClaimThenRequire()), 1);
    RefusedReload(Lenient(), ClaimThenRequire(), 1, Unrecognised);
  }
}

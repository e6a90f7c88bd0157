/** The plugin registry: the indices built from each manifest, committed row by row and scrubbed at once. */
module Registry {
  import opened Identity
  import opened Indices
  import opened InvokeGraph
  import opened Wrappers

  const STEP_TYPE_SEPARATOR := '.'

  /**
   * A step as registration sees it. `texts` are its string parameters; `bodies` the inner step arrays its parameters
   * hold, in the order they are walked.
   */
  datatype Step = Step(stepType: string, texts: map<string, string>, bodies: seq<Body>)

  datatype Body = Body(steps: seq<Step>)

  datatype ActionDef = ActionDef(name: string, steps: seq<Step>, subscribesTo: seq<string>)

  /** `references` name the parameters that hold a target plugin and a target action. */
  datatype StepTypeDef = StepTypeDef(name: string, contract: string, references: seq<(string, string)>)

  datatype ImplKind = Wasm(wasmModule: string) | Native(implRef: string) | Intrinsic(implRef: string)

  datatype StepTypeImpl = StepTypeImpl(stepType: string, selector: Option<string>, kind: ImplKind)

  /** `stepTypes` are the aliases, each with the action it dispatches to. `name` is the author's own. */
  datatype Manifest = Manifest(
    name: string,
    roles: seq<string>,
    actions: seq<ActionDef>,
    stepTypes: seq<(string, string)>,
    stepTypeDefs: seq<StepTypeDef>,
    stepTypeImpls: seq<StepTypeImpl>,
    wasmModules: seq<(string, string)>,
    permissions: seq<string>)

  type PluginKey = (string, string)
  type ImplKey = (string, Option<string>)

  datatype Rows = Rows(
    modules: map<PluginKey, ActionDef>,
    manifests: map<string, Manifest>,
    permissions: map<string, seq<string>>,
    wasmModules: map<PluginKey, string>,
    aliases: map<string, (string, string)>,
    stepTypeDefs: map<string, (string, StepTypeDef)>,
    stepTypeImpls: map<ImplKey, (string, string)>,
    roles: Buckets<string>,
    subscriptions: Buckets<(string, string)>,
    invokeEdges: seq<InvokeEdge>)

  // ------------------------------------------------------------ whose row it is

  function KeyOwner<V>(k: PluginKey, v: V): string { k.0 }

  function ValueOwner<K, V>(k: K, v: (string, V)): string { v.0 }

  function RoleOwner(plugin: string): string { plugin }

  function SubscriberOwner(s: (string, string)): string { s.0 }

  function EdgeOwner(e: InvokeEdge): string { e.from.plugin }

  /** A dotted step type lives in its plugin's namespace; a bare one is the kernel's and is its own key. */
  function StepTypeKey(plugin: string, written: string): string
  {
    if STEP_TYPE_SEPARATOR in written then Qualify(NamespaceOf(plugin), written) else written
  }

  // ------------------------------------------------------------ the rows a manifest brings

  function ActionRows(p: string, actions: seq<ActionDef>): (rows: seq<(PluginKey, ActionDef)>)
    ensures |rows| == |actions|
    ensures forall i | 0 <= i < |rows| :: rows[i] == ((p, actions[i].name), actions[i])
  {
    seq(|actions|, i requires 0 <= i < |actions| => ((p, actions[i].name), actions[i]))
  }

  function ModuleRows(p: string, modules: seq<(string, string)>): (rows: seq<(PluginKey, string)>)
    ensures |rows| == |modules|
    ensures forall i | 0 <= i < |rows| :: rows[i] == ((p, modules[i].0), modules[i].1)
  {
    seq(|modules|, i requires 0 <= i < |modules| => ((p, modules[i].0), modules[i].1))
  }

  function DefRows(p: string, defs: seq<StepTypeDef>): (rows: seq<(string, (string, StepTypeDef))>)
    ensures |rows| == |defs|
    ensures forall i | 0 <= i < |rows| :: rows[i] == (StepTypeKey(p, defs[i].name), (p, defs[i]))
  {
    seq(|defs|, i requires 0 <= i < |defs| => (StepTypeKey(p, defs[i].name), (p, defs[i])))
  }

  function AliasRows(p: string, aliases: seq<(string, string)>): (rows: seq<(string, (string, string))>)
    ensures |rows| == |aliases|
    ensures forall i | 0 <= i < |rows| :: rows[i] == (StepTypeKey(p, aliases[i].0), (p, aliases[i].1))
  {
    seq(|aliases|, i requires 0 <= i < |aliases| => (StepTypeKey(p, aliases[i].0), (p, aliases[i].1)))
  }

  /** Only the wasm kind has rows here; the other kinds claim a linker import. */
  function ImplRows(p: string, impls: seq<StepTypeImpl>): (rows: seq<(ImplKey, (string, string))>)
    ensures forall i | 0 <= i < |rows| :: rows[i].1.0 == p
    ensures forall i | 0 <= i < |rows| :: exists j ::
      0 <= j < |impls| && impls[j].kind.Wasm? && rows[i].0 == (StepTypeKey(p, impls[j].stepType), impls[j].selector)
  {
    if impls == [] then []
    else
      var rest, last := ImplRows(p, impls[..|impls| - 1]), impls[|impls| - 1];
      if last.kind.Wasm? then rest + [((StepTypeKey(p, last.stepType), last.selector), (p, last.kind.wasmModule))]
      else rest
  }

  function PushRoles(roles: Buckets<string>, keys: seq<string>, p: string): Buckets<string>
  {
    if keys == [] then roles else Push(PushRoles(roles, keys[..|keys| - 1], p), keys[|keys| - 1], p)
  }

  function Subscribe(subs: Buckets<(string, string)>, events: seq<string>, s: (string, string))
    : Buckets<(string, string)>
  {
    if events == [] then subs else PushNew(Subscribe(subs, events[..|events| - 1], s), events[|events| - 1], s)
  }

  function SubscribeAll(subs: Buckets<(string, string)>, p: string, actions: seq<ActionDef>): Buckets<(string, string)>
  {
    if actions == [] then subs
    else
      var last := actions[|actions| - 1];
      Subscribe(SubscribeAll(subs, p, actions[..|actions| - 1]), last.subscribesTo, (p, last.name))
  }

  // ------------------------------------------------------------ commit and scrub

  function NoRows(): Rows
  {
    Rows(map[], map[], map[], map[], map[], map[], map[], map[], map[], [])
  }

  /** All rows of a manifest whose checks have passed, under its qualified name. */
  function Committed(r: Rows, p: string, m: Manifest, edges: seq<InvokeEdge>, roleKeys: seq<string>): Rows
  {
    Rows(Insert(r.modules, ActionRows(p, m.actions)),
         r.manifests[p := m.(name := p)],
         r.permissions[p := m.permissions],
         Insert(r.wasmModules, ModuleRows(p, m.wasmModules)),
         Insert(r.aliases, AliasRows(p, m.stepTypes)),
         Insert(r.stepTypeDefs, DefRows(p, m.stepTypeDefs)),
         Insert(r.stepTypeImpls, ImplRows(p, m.stepTypeImpls)),
         PushRoles(r.roles, roleKeys, p),
         SubscribeAll(r.subscriptions, p, m.actions),
         r.invokeEdges + edges)
  }

  /** Every row but those of `p`. Edges that only point at `p` stay. */
  function Scrubbed(r: Rows, p: string): Rows
  {
    Rows(Drop(r.modules, KeyOwner<ActionDef>, p),
         r.manifests - {p},
         r.permissions - {p},
         Drop(r.wasmModules, KeyOwner<string>, p),
         Drop(r.aliases, ValueOwner<string, string>, p),
         Drop(r.stepTypeDefs, ValueOwner<string, StepTypeDef>, p),
         Drop(r.stepTypeImpls, ValueOwner<ImplKey, string>, p),
         Sift(r.roles, RoleOwner, p),
         Sift(r.subscriptions, SubscriberOwner, p),
         Keep(r.invokeEdges, EdgeOwner, p))
  }

  /** Every row of every index, the source of each edge included, belongs to a registered plugin; no bucket is empty. */
  ghost predicate Owned(r: Rows)
  {
    var live := r.manifests.Keys;
    && OwnedIn(r.modules, KeyOwner<ActionDef>, live)
    && r.permissions.Keys <= live
    && OwnedIn(r.wasmModules, KeyOwner<string>, live)
    && OwnedIn(r.aliases, ValueOwner<string, string>, live)
    && OwnedIn(r.stepTypeDefs, ValueOwner<string, StepTypeDef>, live)
    && OwnedIn(r.stepTypeImpls, ValueOwner<ImplKey, string>, live)
    && EntriesIn(r.roles, RoleOwner, live) && NoEmpty(r.roles)
    && EntriesIn(r.subscriptions, SubscriberOwner, live) && NoEmpty(r.subscriptions)
    && SourcesIn(r.invokeEdges, live)
  }

  ghost predicate SourcesIn(edges: seq<InvokeEdge>, live: set<string>)
  {
    forall e | e in edges :: e.from.plugin in live
  }

  /** The slots that two plugins must not share are free, or at least not anybody's yet. */
  ghost predicate SlotsFree(r: Rows, p: string, m: Manifest)
  {
    && (forall i | 0 <= i < |m.stepTypes| :: StepTypeKey(p, m.stepTypes[i].0) !in r.aliases)
    && (forall i | 0 <= i < |m.stepTypeDefs| :: StepTypeKey(p, m.stepTypeDefs[i].name) !in r.stepTypeDefs)
    && (forall i | 0 <= i < |m.stepTypeImpls| && m.stepTypeImpls[i].kind.Wasm? ::
          (StepTypeKey(p, m.stepTypeImpls[i].stepType), m.stepTypeImpls[i].selector) !in r.stepTypeImpls)
  }

  ghost predicate AllFrom(edges: seq<InvokeEdge>, p: string)
  {
    forall e | e in edges :: e.from.plugin == p
  }

  lemma {:induction false} RolesSift(roles: Buckets<string>, keys: seq<string>, p: string, base: Buckets<string>)
    requires SiftsTo(roles, RoleOwner, p, base)
    ensures SiftsTo(PushRoles(roles, keys, p), RoleOwner, p, base)
  {
    if keys != [] {
      RolesSift(roles, keys[..|keys| - 1], p, base);
      PushSifts(PushRoles(roles, keys[..|keys| - 1], p), RoleOwner, p, base, keys[|keys| - 1], p);
    }
  }

  lemma {:induction false} SubscribeSifts(subs: Buckets<(string, string)>, events: seq<string>, s: (string, string),
                                          base: Buckets<(string, string)>)
    requires SiftsTo(subs, SubscriberOwner, s.0, base)
    ensures SiftsTo(Subscribe(subs, events, s), SubscriberOwner, s.0, base)
  {
    if events != [] {
      var n := |events| - 1;
      SubscribeSifts(subs, events[..n], s, base);
      PushNewSifts(Subscribe(subs, events[..n], s), SubscriberOwner, s.0, base, events[n], s);
    }
  }

  lemma {:induction false} SubscribeAllSifts(subs: Buckets<(string, string)>, p: string, actions: seq<ActionDef>,
                                             base: Buckets<(string, string)>)
    requires SiftsTo(subs, SubscriberOwner, p, base)
    ensures SiftsTo(SubscribeAll(subs, p, actions), SubscriberOwner, p, base)
  {
    if actions != [] {
      var n := |actions| - 1;
      SubscribeAllSifts(subs, p, actions[..n], base);
      SubscribeSifts(SubscribeAll(subs, p, actions[..n]), actions[n].subscribesTo, (p, actions[n].name), base);
    }
  }

  lemma {:induction false} EdgesKept(edges: seq<InvokeEdge>, more: seq<InvokeEdge>, p: string)
    requires (forall e | e in edges :: e.from.plugin != p) && AllFrom(more, p)
    ensures Keep(edges + more, EdgeOwner, p) == edges
  {
    if more == [] {
      assert edges + more == edges;
      KeepAll(edges, EdgeOwner, p);
    } else {
      var n := |more| - 1;
      assert edges + more == edges + more[..n] + [more[n]];
      assert more[n] in more;
      EdgesKept(edges, more[..n], p);
      KeepSnoc(edges + more[..n], more[n], EdgeOwner, p);
    }
  }

  /** Scrubbing undoes a commit into free slots, in every index and in the order of every bucket. */
  lemma {:induction false} ScrubUndoesCommit(r: Rows, p: string, m: Manifest, edges: seq<InvokeEdge>,
                                             roleKeys: seq<string>)
    requires Owned(r) && p !in r.manifests && SlotsFree(r, p, m) && AllFrom(edges, p)
    ensures Scrubbed(Committed(r, p, m, edges, roleKeys), p) == r
  {
    hide Drop, Insert, Sift, Keep, PushRoles, SubscribeAll, NoEmpty, OwnedIn, EntriesIn;
    RowsUndone(r, p, m);
    BucketsUndone(r, p, m, roleKeys);
    EdgesKept(r.invokeEdges, edges, p);
    assert r.manifests[p := m.(name := p)] - {p} == r.manifests;
    assert r.permissions[p := m.permissions] - {p} == r.permissions;
  }

  lemma {:induction false} RowsUndone(r: Rows, p: string, m: Manifest)
    requires Owned(r) && p !in r.manifests && SlotsFree(r, p, m)
    ensures Drop(Insert(r.modules, ActionRows(p, m.actions)), KeyOwner<ActionDef>, p) == r.modules
    ensures Drop(Insert(r.wasmModules, ModuleRows(p, m.wasmModules)), KeyOwner<string>, p) == r.wasmModules
    ensures Drop(Insert(r.aliases, AliasRows(p, m.stepTypes)), ValueOwner<string, string>, p) == r.aliases
    ensures Drop(Insert(r.stepTypeDefs, DefRows(p, m.stepTypeDefs)), ValueOwner<string, StepTypeDef>, p) ==
      r.stepTypeDefs
    ensures Drop(Insert(r.stepTypeImpls, ImplRows(p, m.stepTypeImpls)), ValueOwner<ImplKey, string>, p) ==
      r.stepTypeImpls
  {
    hide Drop, Insert;
    InsertDrops(r.modules, ActionRows(p, m.actions), KeyOwner<ActionDef>, p);
    InsertDrops(r.wasmModules, ModuleRows(p, m.wasmModules), KeyOwner<string>, p);
    InsertDrops(r.aliases, AliasRows(p, m.stepTypes), ValueOwner<string, string>, p);
    InsertDrops(r.stepTypeDefs, DefRows(p, m.stepTypeDefs), ValueOwner<string, StepTypeDef>, p);
    InsertDrops(r.stepTypeImpls, ImplRows(p, m.stepTypeImpls), ValueOwner<ImplKey, string>, p);
  }

  lemma {:induction false} BucketsUndone(r: Rows, p: string, m: Manifest, roleKeys: seq<string>)
    requires Owned(r) && p !in r.manifests
    ensures Sift(PushRoles(r.roles, roleKeys, p), RoleOwner, p) == r.roles
    ensures Sift(SubscribeAll(r.subscriptions, p, m.actions), SubscriberOwner, p) == r.subscriptions
  {
    hide SiftsTo, Sift, Keep, PushRoles, SubscribeAll, NoEmpty;
    NothingToSift(r.roles, RoleOwner, p);
    RolesSift(r.roles, roleKeys, p, r.roles);
    SiftIs(PushRoles(r.roles, roleKeys, p), RoleOwner, p, r.roles);
    NothingToSift(r.subscriptions, SubscriberOwner, p);
    SubscribeAllSifts(r.subscriptions, p, m.actions, r.subscriptions);
    SiftIs(SubscribeAll(r.subscriptions, p, m.actions), SubscriberOwner, p, r.subscriptions);
  }

  lemma {:induction false} RolesEntries(roles: Buckets<string>, keys: seq<string>, p: string, live: set<string>)
    requires EntriesIn(roles, RoleOwner, live) && NoEmpty(roles)
    ensures EntriesIn(PushRoles(roles, keys, p), RoleOwner, live + {p}) && NoEmpty(PushRoles(roles, keys, p))
  {
    hide Push;
    if keys != [] {
      RolesEntries(roles, keys[..|keys| - 1], p, live);
      PushEntries(PushRoles(roles, keys[..|keys| - 1], p), RoleOwner, live + {p}, keys[|keys| - 1], p);
      assert live + {p} + {p} == live + {p};
    }
  }

  lemma {:induction false} SubscribeEntries(subs: Buckets<(string, string)>, events: seq<string>, s: (string, string),
                                            live: set<string>)
    requires EntriesIn(subs, SubscriberOwner, live) && NoEmpty(subs)
    ensures EntriesIn(Subscribe(subs, events, s), SubscriberOwner, live + {s.0}) && NoEmpty(Subscribe(subs, events, s))
  {
    hide PushNew;
    if events != [] {
      var n := |events| - 1;
      SubscribeEntries(subs, events[..n], s, live);
      PushEntries(Subscribe(subs, events[..n], s), SubscriberOwner, live + {s.0}, events[n], s);
      assert live + {s.0} + {s.0} == live + {s.0};
    }
  }

  lemma {:induction false} SubscribeAllEntries(subs: Buckets<(string, string)>, p: string, actions: seq<ActionDef>,
                                               live: set<string>)
    requires EntriesIn(subs, SubscriberOwner, live) && NoEmpty(subs)
    ensures EntriesIn(SubscribeAll(subs, p, actions), SubscriberOwner, live + {p}) &&
      NoEmpty(SubscribeAll(subs, p, actions))
  {
    hide Subscribe;
    if actions != [] {
      var n := |actions| - 1;
      SubscribeAllEntries(subs, p, actions[..n], live);
      SubscribeEntries(SubscribeAll(subs, p, actions[..n]), actions[n].subscribesTo, (p, actions[n].name), live + {p});
      assert live + {p} + {p} == live + {p};
    }
  }

  lemma {:induction false} CommitKeepsOwned(r: Rows, p: string, m: Manifest, edges: seq<InvokeEdge>,
                                            roleKeys: seq<string>)
    requires Owned(r) && AllFrom(edges, p)
    ensures Owned(Committed(r, p, m, edges, roleKeys))
  {
    hide Insert, PushRoles, SubscribeAll, OwnedIn, EntriesIn, NoEmpty;
    var live := r.manifests.Keys;
    assert Committed(r, p, m, edges, roleKeys).manifests.Keys == live + {p};
    InsertOwned(r.modules, ActionRows(p, m.actions), KeyOwner<ActionDef>, live, p);
    InsertOwned(r.wasmModules, ModuleRows(p, m.wasmModules), KeyOwner<string>, live, p);
    InsertOwned(r.aliases, AliasRows(p, m.stepTypes), ValueOwner<string, string>, live, p);
    InsertOwned(r.stepTypeDefs, DefRows(p, m.stepTypeDefs), ValueOwner<string, StepTypeDef>, live, p);
    InsertOwned(r.stepTypeImpls, ImplRows(p, m.stepTypeImpls), ValueOwner<ImplKey, string>, live, p);
    RolesEntries(r.roles, roleKeys, p, live);
    SubscribeAllEntries(r.subscriptions, p, m.actions, live);
  }

  lemma {:induction false} ScrubKeepsOwned(r: Rows, p: string)
    requires Owned(r)
    ensures Owned(Scrubbed(r, p)) && Scrubbed(r, p).manifests.Keys == r.manifests.Keys - {p}
  {
    hide Drop, Sift, OwnedIn, EntriesIn, NoEmpty;
    var live := r.manifests.Keys;
    assert (r.manifests - {p}).Keys == live - {p};
    DropOwned(r.modules, KeyOwner<ActionDef>, live, p);
    DropOwned(r.wasmModules, KeyOwner<string>, live, p);
    DropOwned(r.aliases, ValueOwner<string, string>, live, p);
    DropOwned(r.stepTypeDefs, ValueOwner<string, StepTypeDef>, live, p);
    DropOwned(r.stepTypeImpls, ValueOwner<ImplKey, string>, live, p);
    SiftEntries(r.roles, RoleOwner, live, p);
    SiftEntries(r.subscriptions, SubscriberOwner, live, p);
    KeepHas(r.invokeEdges, EdgeOwner, p);
  }

  // ------------------------------------------------------------ the registry itself

  class PluginRegistry {
    var modules: map<PluginKey, ActionDef>
    var manifests: map<string, Manifest>
    var permissions: map<string, seq<string>>
    var pluginWasmModules: map<PluginKey, string>
    var stepTypeAliases: map<string, (string, string)>
    var stepTypeDefs: map<string, (string, StepTypeDef)>
    var stepTypeImpls: map<ImplKey, (string, string)>
    var roles: Buckets<string>
    var subscriptions: Buckets<(string, string)>
    var invokeEdges: seq<InvokeEdge>

    function View(): Rows
      reads this
    {
      Rows(modules, manifests, permissions, pluginWasmModules, stepTypeAliases, stepTypeDefs, stepTypeImpls, roles,
           subscriptions, invokeEdges)
    }

    constructor ()
      ensures View() == NoRows()
    {
      modules, manifests, permissions, pluginWasmModules := map[], map[], map[], map[];
      stepTypeAliases, stepTypeDefs, stepTypeImpls := map[], map[], map[];
      roles, subscriptions, invokeEdges := map[], map[], [];
    }

    method RegisterActions(p: string, actions: seq<ActionDef>)
      modifies this`modules
      ensures modules == Insert(old(modules), ActionRows(p, actions))
    {
      for k := 0 to |actions|
        invariant modules == Insert(old(modules), ActionRows(p, actions[..k]))
      {
        modules := modules[(p, actions[k].name) := actions[k]];
        InsertNext(old(modules), ActionRows(p, actions[..k]), ActionRows(p, actions[..k + 1]));
      }
      assert actions[..|actions|] == actions;
    }

    method RegisterPluginWasmModules(p: string, wasm: seq<(string, string)>)
      modifies this`pluginWasmModules
      ensures pluginWasmModules == Insert(old(pluginWasmModules), ModuleRows(p, wasm))
    {
      for k := 0 to |wasm|
        invariant pluginWasmModules == Insert(old(pluginWasmModules), ModuleRows(p, wasm[..k]))
      {
        pluginWasmModules := pluginWasmModules[(p, wasm[k].0) := wasm[k].1];
        InsertNext(old(pluginWasmModules), ModuleRows(p, wasm[..k]), ModuleRows(p, wasm[..k + 1]));
      }
      assert wasm[..|wasm|] == wasm;
    }

    method CommitStepTypeDefs(p: string, defs: seq<StepTypeDef>)
      modifies this`stepTypeDefs
      ensures stepTypeDefs == Insert(old(stepTypeDefs), DefRows(p, defs))
    {
      for k := 0 to |defs|
        invariant stepTypeDefs == Insert(old(stepTypeDefs), DefRows(p, defs[..k]))
      {
        stepTypeDefs := stepTypeDefs[StepTypeKey(p, defs[k].name) := (p, defs[k])];
        InsertNext(old(stepTypeDefs), DefRows(p, defs[..k]), DefRows(p, defs[..k + 1]));
      }
      assert defs[..|defs|] == defs;
    }

    method CommitStepTypeAliases(p: string, aliases: seq<(string, string)>)
      modifies this`stepTypeAliases
      ensures stepTypeAliases == Insert(old(stepTypeAliases), AliasRows(p, aliases))
    {
      for k := 0 to |aliases|
        invariant stepTypeAliases == Insert(old(stepTypeAliases), AliasRows(p, aliases[..k]))
      {
        stepTypeAliases := stepTypeAliases[StepTypeKey(p, aliases[k].0) := (p, aliases[k].1)];
        InsertNext(old(stepTypeAliases), AliasRows(p, aliases[..k]), AliasRows(p, aliases[..k + 1]));
      }
      assert aliases[..|aliases|] == aliases;
    }

    method CommitStepTypeImpls(p: string, impls: seq<StepTypeImpl>)
      modifies this`stepTypeImpls
      ensures stepTypeImpls == Insert(old(stepTypeImpls), ImplRows(p, impls))
    {
      for k := 0 to |impls|
        invariant stepTypeImpls == Insert(old(stepTypeImpls), ImplRows(p, impls[..k]))
      {
        assert impls[..k + 1][..k] == impls[..k];
        if impls[k].kind.Wasm? {
          stepTypeImpls :=
            stepTypeImpls[(StepTypeKey(p, impls[k].stepType), impls[k].selector) := (p, impls[k].kind.wasmModule)];
          InsertNext(old(stepTypeImpls), ImplRows(p, impls[..k]), ImplRows(p, impls[..k + 1]));
        }
      }
      assert impls[..|impls|] == impls;
    }

    method RegisterRoles(keys: seq<string>, p: string)
      modifies this`roles
      ensures roles == PushRoles(old(roles), keys, p)
    {
      for k := 0 to |keys|
        invariant roles == PushRoles(old(roles), keys[..k], p)
      {
        assert keys[..k + 1][..k] == keys[..k];
        roles := roles[keys[k] := Bucket(roles, keys[k]) + [p]];
      }
      assert keys[..|keys|] == keys;
    }

    /** A pair already in the bucket is not added again. */
    method RegisterSubscription(event: string, p: string, action: string)
      modifies this`subscriptions
      ensures subscriptions == PushNew(old(subscriptions), event, (p, action))
    {
      var bucket := Bucket(subscriptions, event);
      if (p, action) !in bucket {
        bucket := bucket + [(p, action)];
      }
      subscriptions := subscriptions[event := bucket];
    }

    method RegisterSubscriptions(p: string, actions: seq<ActionDef>)
      modifies this`subscriptions
      ensures subscriptions == SubscribeAll(old(subscriptions), p, actions)
    {
      for k := 0 to |actions|
        invariant subscriptions == SubscribeAll(old(subscriptions), p, actions[..k])
      {
        var events := actions[k].subscribesTo;
        ghost var before := subscriptions;
        for j := 0 to |events|
          invariant subscriptions == Subscribe(before, events[..j], (p, actions[k].name))
        {
          assert events[..j + 1][..j] == events[..j];
          RegisterSubscription(events[j], p, actions[k].name);
        }
        assert events[..|events|] == events;
        assert actions[..k + 1][..k] == actions[..k];
      }
      assert actions[..|actions|] == actions;
    }

    method CommitBodies(p: string, m: Manifest)
      modifies this`modules, this`pluginWasmModules, this`stepTypeDefs, this`stepTypeImpls
      ensures modules == Insert(old(modules), ActionRows(p, m.actions))
      ensures pluginWasmModules == Insert(old(pluginWasmModules), ModuleRows(p, m.wasmModules))
      ensures stepTypeDefs == Insert(old(stepTypeDefs), DefRows(p, m.stepTypeDefs))
      ensures stepTypeImpls == Insert(old(stepTypeImpls), ImplRows(p, m.stepTypeImpls))
    {
      hide *;
      RegisterActions(p, m.actions);
      RegisterPluginWasmModules(p, m.wasmModules);
      CommitStepTypeDefs(p, m.stepTypeDefs);
      CommitStepTypeImpls(p, m.stepTypeImpls);
    }

    method CommitBindings(p: string, m: Manifest, edges: seq<InvokeEdge>, roleKeys: seq<string>)
      modifies this`invokeEdges, this`manifests, this`roles, this`permissions, this`stepTypeAliases, this`subscriptions
      ensures invokeEdges == old(invokeEdges) + edges
      ensures manifests == old(manifests)[p := m.(name := p)] && permissions == old(permissions)[p := m.permissions]
      ensures roles == PushRoles(old(roles), roleKeys, p)
      ensures stepTypeAliases == Insert(old(stepTypeAliases), AliasRows(p, m.stepTypes))
      ensures subscriptions == SubscribeAll(old(subscriptions), p, m.actions)
    {
      hide *;
      invokeEdges := invokeEdges + edges;
      manifests := manifests[p := m.(name := p)];
      RegisterRoles(roleKeys, p);
      permissions := permissions[p := m.permissions];
      CommitStepTypeAliases(p, m.stepTypes);
      RegisterSubscriptions(p, m.actions);
    }

    /** The whole commit; the caller has done every check. */
    method CommitManifest(p: string, m: Manifest, edges: seq<InvokeEdge>, roleKeys: seq<string>)
      modifies this
      ensures View() == Committed(old(View()), p, m, edges, roleKeys)
    {
      hide Insert, ActionRows, ModuleRows, DefRows, AliasRows, ImplRows, PushRoles, SubscribeAll;
      CommitBodies(p, m);
      CommitBindings(p, m, edges, roleKeys);
    }

    /** Every bucket without the plugin, then without the buckets that leaves empty. */
    method RetainRoles(p: string)
      modifies this`roles
      ensures roles == Sift(old(roles), RoleOwner, p)
    {
      roles := map key | key in roles :: Keep(roles[key], RoleOwner, p);
      roles := map key | key in roles && roles[key] != [] :: roles[key];
    }

    method RetainSubscriptions(p: string)
      modifies this`subscriptions
      ensures subscriptions == Sift(old(subscriptions), SubscriberOwner, p)
    {
      subscriptions := map key | key in subscriptions :: Keep(subscriptions[key], SubscriberOwner, p);
      subscriptions := map key | key in subscriptions && subscriptions[key] != [] :: subscriptions[key];
    }

    method DropRows(p: string)
      modifies this`modules, this`manifests, this`permissions, this`pluginWasmModules, this`stepTypeAliases,
        this`stepTypeDefs, this`stepTypeImpls
      ensures modules == Drop(old(modules), KeyOwner<ActionDef>, p)
      ensures manifests == old(manifests) - {p} && permissions == old(permissions) - {p}
      ensures pluginWasmModules == Drop(old(pluginWasmModules), KeyOwner<string>, p)
      ensures stepTypeAliases == Drop(old(stepTypeAliases), ValueOwner<string, string>, p)
      ensures stepTypeDefs == Drop(old(stepTypeDefs), ValueOwner<string, StepTypeDef>, p)
      ensures stepTypeImpls == Drop(old(stepTypeImpls), ValueOwner<ImplKey, string>, p)
    {
      hide *;
      modules := Drop(modules, KeyOwner<ActionDef>, p);
      manifests := manifests - {p};
      permissions := permissions - {p};
      pluginWasmModules := Drop(pluginWasmModules, KeyOwner<string>, p);
      stepTypeAliases := Drop(stepTypeAliases, ValueOwner<string, string>, p);
      stepTypeDefs := Drop(stepTypeDefs, ValueOwner<string, StepTypeDef>, p);
      stepTypeImpls := Drop(stepTypeImpls, ValueOwner<ImplKey, string>, p);
    }

    /** Removes every trace of a plugin; false when it is not registered. */
    method UnregisterPlugin(p: string) returns (removed: bool)
      modifies this
      ensures removed == (p in old(manifests))
      ensures View() == if removed then Scrubbed(old(View()), p) else old(View())
    {
      hide Drop, Sift, Keep;
      if p !in manifests {
        return false;
      }
      DropRows(p);
      RetainRoles(p);
      RetainSubscriptions(p);
      invokeEdges := Keep(invokeEdges, EdgeOwner, p);
      return true;
    }
  }

  lemma {:induction false} InsertNext<K, V>(m: map<K, V>, rows: seq<(K, V)>, more: seq<(K, V)>)
    requires |more| == |rows| + 1 && forall i | 0 <= i < |rows| :: more[i] == rows[i]
    ensures Insert(m, more) == Insert(m, rows)[more[|rows|].0 := more[|rows|].1]
  {
    assert more[..|rows|] == rows;
  }
}

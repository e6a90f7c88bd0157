/** When a failed reload gets its old manifest back, and when it does not. */
module Rollback {
  import opened Admission
  import opened Identity
  import opened Indices
  import opened InvokeGraph
  import opened Lifecycle
  import opened LifecycleLaws
  import opened Machine
  import opened Registry
  import opened Wrappers

  /** The checks a manifest passes or fails whatever else is registered. */
  ghost predicate WellFormed(ownChecks: OwnChecks, record: Record)
    requires record.payload.Plugin?
  {
    var p, m := record.identifier, record.payload.manifest;
    && ValidateNamespace(record.namespace).Ok? && ValidateName(PluginName, m.name).Ok?
    && ownChecks(record.namespace, m, record.immutable)
    && AliasesSound(map[], p, m) && ImportsFree(map[], p, ImportKeys(p, m)) && DefsFree(map[], p, m) &&
      ImplsFree(map[], p, m)
  }

  /** The rows of `p` are those its manifest brings: no other, and none lost to anybody else. */
  ghost predicate Reflects(rows: Rows, p: string, m: Manifest)
  {
    && Only(rows.modules, KeyOwner<ActionDef>, p) == Insert(map[], ActionRows(p, m.actions))
    && p in rows.manifests && rows.manifests[p] == m.(name := p)
    && p in rows.permissions && rows.permissions[p] == m.permissions
    && Only(rows.wasmModules, KeyOwner<string>, p) == Insert(map[], ModuleRows(p, m.wasmModules))
    && Only(rows.aliases, ValueOwner<string, string>, p) == Insert(map[], AliasRows(p, m.stepTypes))
    && Only(rows.stepTypeDefs, ValueOwner<string, StepTypeDef>, p) == Insert(map[], DefRows(p, m.stepTypeDefs))
    && Only(rows.stepTypeImpls, ValueOwner<ImplKey, string>, p) == Insert(map[], ImplRows(p, m.stepTypeImpls))
    && Subscribed(rows.subscriptions, p, m)
  }

  /** Its entries in each bucket are those its actions subscribe, in their order. */
  ghost predicate Subscribed(subs: Buckets<(string, string)>, p: string, m: Manifest)
  {
    forall event :: Mine(Bucket(subs, event), SubscriberOwner, p) == Bucket(SubscribeAll(map[], p, m.actions), event)
  }

  ghost predicate Imported(owners: map<string, string>, p: string, m: Manifest)
  {
    forall key :: key in owners && owners[key] == p <==> key in ImportKeys(p, m)
  }

  ghost predicate RecordReflected(k: KernelState, record: Record)
    requires record.payload.Plugin?
  {
    && WellFormed(k.ownChecks, record)
    && Reflects(k.rows, record.identifier, record.payload.manifest)
    && Imported(k.importOwners, record.identifier, record.payload.manifest)
  }

  /** Every loaded plugin passed its own checks and has exactly the rows of its manifest. */
  ghost predicate Reflected(k: KernelState)
  {
    forall h | h in k.loaded && k.loaded[h].payload.Plugin? :: RecordReflected(k, k.loaded[h])
  }

  // ------------------------------------------------------------ roles and subscriptions

  ghost predicate NoneOf(subs: Buckets<(string, string)>, p: string)
  {
    forall key, s | key in subs && s in subs[key] :: SubscriberOwner(s) != p
  }

  lemma {:induction false} PushAppends(subs: Buckets<(string, string)>, base: Buckets<(string, string)>,
                                       more: Buckets<(string, string)>, event: string, s: (string, string))
    requires Appended(subs, base, more) && NoneOf(base, s.0)
    ensures Appended(PushNew(subs, event, s), base, PushNew(more, event, s))
  {
    hide PushNew;
    forall key
      ensures Bucket(PushNew(subs, event, s), key) == Bucket(base, key) + Bucket(PushNew(more, event, s), key)
    {
      PushAppendsAt(subs, base, more, event, s, key);
    }
  }

  lemma {:induction false} PushAppendsAt(subs: Buckets<(string, string)>, base: Buckets<(string, string)>,
                                         more: Buckets<(string, string)>, event: string, s: (string, string),
                                         key: string)
    requires Appended(subs, base, more) && NoneOf(base, s.0)
    ensures Bucket(PushNew(subs, event, s), key) == Bucket(base, key) + Bucket(PushNew(more, event, s), key)
  {
    hide PushNew;
    PushNewBucket(subs, event, s, key);
    PushNewBucket(more, event, s, key);
    var a, b := Bucket(base, key), Bucket(more, key);
    assert Bucket(subs, key) == a + b;
    assert s in a ==> SubscriberOwner(s) != s.0;
    assert a + b + [s] == a + (b + [s]);
  }

  lemma {:induction false} SubscribeAppends(subs: Buckets<(string, string)>, base: Buckets<(string, string)>,
                                            more: Buckets<(string, string)>, events: seq<string>, s: (string, string))
    requires Appended(subs, base, more) && NoneOf(base, s.0)
    ensures Appended(Subscribe(subs, events, s), base, Subscribe(more, events, s))
  {
    if events != [] {
      var n := |events| - 1;
      SubscribeAppends(subs, base, more, events[..n], s);
      PushAppends(Subscribe(subs, events[..n], s), base, Subscribe(more, events[..n], s), events[n], s);
    }
  }

  lemma {:induction false} SubscribeAllAppends(subs: Buckets<(string, string)>, p: string, actions: seq<ActionDef>)
    requires NoneOf(subs, p)
    ensures Appended(SubscribeAll(subs, p, actions), subs, SubscribeAll(map[], p, actions))
  {
    hide Subscribe;
    if actions == [] {
      forall key ensures Bucket(subs, key) == Bucket(subs, key) + Bucket(map[], key) {}
    } else {
      var n := |actions| - 1;
      SubscribeAllAppends(subs, p, actions[..n]);
      SubscribeAppends(SubscribeAll(subs, p, actions[..n]), subs, SubscribeAll(map[], p, actions[..n]),
                       actions[n].subscribesTo, (p, actions[n].name));
    }
  }

  lemma {:induction false} SubscribeAllOwned(p: string, actions: seq<ActionDef>, event: string)
    ensures forall s | s in Bucket(SubscribeAll(map[], p, actions), event) :: s.0 == p
  {
    hide SubscribeAll;
    SubscribeAllEntries(map[], p, actions, {});
    forall s | s in Bucket(SubscribeAll(map[], p, actions), event)
      ensures s.0 == p
    {
      assert SubscriberOwner(s) in {} + {p};
    }
  }

  lemma {:induction false} PushedRoles(roles: Buckets<string>, keys: seq<string>, p: string, key: string)
    requires AllDifferent(keys)
    ensures Bucket(PushRoles(roles, keys, p), key) == Bucket(roles, key) + if key in keys then [p] else []
  {
    if keys != [] {
      var n := |keys| - 1;
      PushedRoles(roles, keys[..n], p, key);
      assert keys == keys[..n] + [keys[n]];
    }
  }

  ghost predicate AllDifferent(keys: seq<string>)
  {
    forall i, j | 0 <= i < j < |keys| :: keys[i] != keys[j]
  }

  lemma {:induction false} RoleKeysDiffer(spi: map<string, Contract>, namespace: string, roles: seq<string>)
    ensures AllDifferent(RoleKeysFor(spi, namespace, roles))
  {
    hide RoleKey;
    if roles != [] {
      RoleKeysDiffer(spi, namespace, roles[..|roles| - 1]);
      var before, key := RoleKeysFor(spi, namespace, roles[..|roles| - 1]), RoleKey(spi, namespace, roles[|roles| - 1]);
      assert key !in before ==> AllDifferent(before + [key]);
    }
  }

  // ------------------------------------------------------------ a plugin's own rows

  /** No row of any index names `p`. */
  ghost predicate Absent(r: Rows, p: string)
  {
    && (forall key | key in r.modules :: KeyOwner(key, r.modules[key]) != p)
    && (forall key | key in r.wasmModules :: KeyOwner(key, r.wasmModules[key]) != p)
    && (forall key | key in r.aliases :: ValueOwner(key, r.aliases[key]) != p)
    && (forall key | key in r.stepTypeDefs :: ValueOwner(key, r.stepTypeDefs[key]) != p)
    && (forall key | key in r.stepTypeImpls :: ValueOwner(key, r.stepTypeImpls[key]) != p)
    && NoneOf(r.subscriptions, p)
  }

  lemma {:induction false} UnregisteredIsAbsent(r: Rows, p: string)
    requires Owned(r) && p !in r.manifests
    ensures Absent(r, p)
  {
  }

  lemma {:induction false} CommitReflects(r: Rows, p: string, m: Manifest, edges: seq<InvokeEdge>,
                                          roleKeys: seq<string>)
    requires Absent(r, p)
    ensures Reflects(Committed(r, p, m, edges, roleKeys), p, m)
  {
    hide Insert, Only, SubscribeAll, Mine, PushRoles;
    InsertOnly(r.modules, ActionRows(p, m.actions), KeyOwner<ActionDef>, p);
    InsertOnly(r.wasmModules, ModuleRows(p, m.wasmModules), KeyOwner<string>, p);
    InsertOnly(r.aliases, AliasRows(p, m.stepTypes), ValueOwner<string, string>, p);
    InsertOnly(r.stepTypeDefs, DefRows(p, m.stepTypeDefs), ValueOwner<string, StepTypeDef>, p);
    InsertOnly(r.stepTypeImpls, ImplRows(p, m.stepTypeImpls), ValueOwner<ImplKey, string>, p);
    CommitSubscribes(r.subscriptions, p, m);
  }

  lemma {:induction false} CommitSubscribes(subs: Buckets<(string, string)>, p: string, m: Manifest)
    requires NoneOf(subs, p)
    ensures Subscribed(SubscribeAll(subs, p, m.actions), p, m)
  {
    hide SubscribeAll, Mine;
    SubscribeAllAppends(subs, p, m.actions);
    var more := SubscribeAll(map[], p, m.actions);
    forall event
      ensures Mine(Bucket(SubscribeAll(subs, p, m.actions), event), SubscriberOwner, p) == Bucket(more, event)
    {
      SubscribeAllOwned(p, m.actions, event);
      MineAfter(Bucket(subs, event), Bucket(more, event), SubscriberOwner, p);
    }
  }

  lemma {:induction false} ClaimImports(owners: map<string, string>, p: string, m: Manifest)
    requires forall key | key in owners :: owners[key] != p
    ensures Imported(Claimed(owners, ImportKeys(p, m), p), p, m)
  {
    hide Claimed, ImportKeys;
    forall key
      ensures key in Claimed(owners, ImportKeys(p, m), p) && Claimed(owners, ImportKeys(p, m), p)[key] == p <==>
        key in ImportKeys(p, m)
    {
      ClaimedIs(owners, ImportKeys(p, m), p, key);
    }
  }

  // ------------------------------------------------------------ everybody else's

  /** Another plugin's commit into free slots leaves them alone. */
  lemma {:induction false} CommitLeaves(r: Rows, p: string, m: Manifest, edges: seq<InvokeEdge>, roleKeys: seq<string>,
                                        q: string, other: Manifest)
    requires Absent(r, p) && SlotsFree(r, p, m) && q != p && Reflects(r, q, other)
    ensures Reflects(Committed(r, p, m, edges, roleKeys), q, other)
  {
    hide Insert, Only, SubscribeAll, Mine, PushRoles;
    InsertLeavesOnly(r.modules, ActionRows(p, m.actions), KeyOwner<ActionDef>, q);
    InsertLeavesOnly(r.wasmModules, ModuleRows(p, m.wasmModules), KeyOwner<string>, q);
    InsertLeavesOnly(r.aliases, AliasRows(p, m.stepTypes), ValueOwner<string, string>, q);
    InsertLeavesOnly(r.stepTypeDefs, DefRows(p, m.stepTypeDefs), ValueOwner<string, StepTypeDef>, q);
    InsertLeavesOnly(r.stepTypeImpls, ImplRows(p, m.stepTypeImpls), ValueOwner<ImplKey, string>, q);
    CommitLeavesSubscribed(r.subscriptions, p, m, q, other);
  }

  lemma {:induction false} CommitLeavesSubscribed(subs: Buckets<(string, string)>, p: string, m: Manifest, q: string,
                                                  other: Manifest)
    requires NoneOf(subs, p) && q != p && Subscribed(subs, q, other)
    ensures Subscribed(SubscribeAll(subs, p, m.actions), q, other)
  {
    hide SubscribeAll, Mine;
    SubscribeAllAppends(subs, p, m.actions);
    var more := SubscribeAll(map[], p, m.actions);
    forall event
      ensures Mine(Bucket(SubscribeAll(subs, p, m.actions), event), SubscriberOwner, q) ==
        Bucket(SubscribeAll(map[], q, other.actions), event)
    {
      SubscribeAllOwned(p, m.actions, event);
      MineBefore(Bucket(subs, event), Bucket(more, event), SubscriberOwner, q);
    }
  }

  lemma {:induction false} ClaimLeavesImports(owners: map<string, string>, p: string, m: Manifest, q: string,
                                              other: Manifest)
    requires ImportsFree(owners, p, ImportKeys(p, m)) && q != p && Imported(owners, q, other)
    ensures Imported(Claimed(owners, ImportKeys(p, m), p), q, other)
  {
    hide Claimed, ImportKeys;
    var keys := ImportKeys(p, m);
    forall key
      ensures key in Claimed(owners, keys, p) && Claimed(owners, keys, p)[key] == q <==> key in ImportKeys(q, other)
    {
      ClaimedIs(owners, keys, p, key);
      assert key in keys && key in owners ==> owners[key] == p;
    }
  }

  /** Another plugin's removal does too. */
  lemma {:induction false} ScrubLeaves(r: Rows, p: string, q: string, other: Manifest)
    requires q != p && Reflects(r, q, other)
    ensures Reflects(Scrubbed(r, p), q, other)
  {
    hide Insert, Only, Drop, SubscribeAll, Mine, Sift, Keep;
    DropLeavesOnly(r.modules, KeyOwner<ActionDef>, p, q);
    DropLeavesOnly(r.wasmModules, KeyOwner<string>, p, q);
    DropLeavesOnly(r.aliases, ValueOwner<string, string>, p, q);
    DropLeavesOnly(r.stepTypeDefs, ValueOwner<string, StepTypeDef>, p, q);
    DropLeavesOnly(r.stepTypeImpls, ValueOwner<ImplKey, string>, p, q);
    forall event
      ensures Mine(Bucket(Sift(r.subscriptions, SubscriberOwner, p), event), SubscriberOwner, q) ==
        Bucket(SubscribeAll(map[], q, other.actions), event)
    {
      SiftBucket(r.subscriptions, SubscriberOwner, p, event);
      KeepLeavesMine(Bucket(r.subscriptions, event), SubscriberOwner, p, q);
    }
  }

  lemma {:induction false} ReleaseLeavesImports(owners: map<string, string>, p: string, keys: seq<string>, q: string,
                                                other: Manifest)
    requires q != p && Imported(owners, q, other)
    ensures Imported(Released(owners, keys, p), q, other)
  {
    hide Released, ImportKeys;
    forall key
      ensures key in Released(owners, keys, p) && Released(owners, keys, p)[key] == q <==> key in ImportKeys(q, other)
    {
      ReleasedIs(owners, keys, p, key);
    }
  }

  // ------------------------------------------------------------ what each transition keeps

  lemma {:induction false} Accepted(k: KernelState, namespace: string, m: Manifest, kernelOwned: bool)
    requires Rejection(k, namespace, m, kernelOwned).None?
    ensures var p := Qualify(namespace, m.name);
      && p !in k.rows.manifests && SlotsFree(k.rows, p, m) && ImportsFree(k.importOwners, p, ImportKeys(p, m))
      && WellFormed(k.ownChecks, Record(p, namespace, Plugin(m), kernelOwned))
  {
    hide Qualify, StepTypeKey, NewEdges, ImportKeys, Acyclic, ValidateName, ValidateNamespace, MeetsContracts,
      ScriptsRun, ReferencesKnown, ImplsDefined;
  }

  lemma {:induction false} RegisterReflected(k: KernelState, namespace: string, m: Manifest, kernelOwned: bool)
    requires Inv(k) && Reflected(k) && Rejection(k, namespace, m, kernelOwned).None?
    ensures Reflected(Registered(k, namespace, m))
    ensures RecordReflected(Registered(k, namespace, m),
      Record(Qualify(namespace, m.name), namespace, Plugin(m), kernelOwned))
  {
    hide Owned, Acyclic, Distinct, UsersSound, Reflects, Imported, WellFormed, Qualify, Rejection, NewEdges,
      RoleKeysFor, ImportKeys, Claimed, Committed, SlotsFree, Absent, ImportsFree;
    var p, after := Qualify(namespace, m.name), Registered(k, namespace, m);
    var edges, roleKeys := NewEdges(k.rows, p, m), RoleKeysFor(k.spi, namespace, m.roles);
    Accepted(k, namespace, m, kernelOwned);
    UnregisteredIsAbsent(k.rows, p);
    CommitReflects(k.rows, p, m, edges, roleKeys);
    ClaimImports(k.importOwners, p, m);
    forall h | h in k.loaded && k.loaded[h].payload.Plugin?
      ensures RecordReflected(after, k.loaded[h])
    {
      var q, other := k.loaded[h].identifier, k.loaded[h].payload.manifest;
      assert Recorded(k, h) && RecordReflected(k, k.loaded[h]);
      CommitLeaves(k.rows, p, m, edges, roleKeys, q, other);
      ClaimLeavesImports(k.importOwners, p, m, q, other);
    }
  }

  lemma {:induction false} ReflectedIgnoresTheRest(k: KernelState, after: KernelState)
    requires Reflected(k) && after.ownChecks == k.ownChecks && after.rows == k.rows &&
      after.importOwners == k.importOwners
    requires forall h | h in after.loaded :: h in k.loaded && after.loaded[h] == k.loaded[h]
    ensures Reflected(after)
  {
    hide WellFormed, Reflects, Imported;
    forall h | h in after.loaded && after.loaded[h].payload.Plugin?
      ensures RecordReflected(after, after.loaded[h])
    {
      assert RecordReflected(k, k.loaded[h]);
    }
  }

  lemma {:induction false} ClassifiedReflected(k: KernelState, namespace: string, c: Classified, kernelOwned: bool)
    requires Inv(k) && Reflected(k) && RegisterClassified(k, namespace, c, kernelOwned).Ok?
    ensures var (after, record) := RegisterClassified(k, namespace, c, kernelOwned).value;
      Reflected(after) && (record.payload.Plugin? ==> RecordReflected(after, record.(immutable := kernelOwned)))
  {
    hide Inv, Reflected, RecordReflected, Qualify, Rejection, Registered;
    if c.PluginManifest? {
      RegisterReflected(k, namespace, c.manifest, kernelOwned);
    } else {
      ReflectedIgnoresTheRest(k, RegisterClassified(k, namespace, c, kernelOwned).value.0);
    }
  }

  lemma {:induction false} TrackReflected(k: KernelState, handle: nat, record: Record)
    requires Reflected(k) && (record.payload.Plugin? ==> RecordReflected(k, record))
    ensures Reflected(Tracked(k, handle, record))
  {
    hide WellFormed, Reflects, Imported, WithUser, RoleKeysFor;
    var after := Tracked(k, handle, record);
    forall h | h in after.loaded && after.loaded[h].payload.Plugin?
      ensures RecordReflected(after, after.loaded[h])
    {
      assert h != handle ==> RecordReflected(k, k.loaded[h]);
    }
  }

  lemma {:induction false} UnregisterReflected(k: KernelState, handle: nat)
    requires Inv(k) && Reflected(k) && handle in k.loaded && k.loaded[handle].payload.Plugin?
    ensures Reflected(Unregistered(Forgotten(k, handle), k.loaded[handle].identifier,
      k.loaded[handle].payload.manifest))
  {
    hide Sound, Recorded, UsersSound, WellFormed, Reflects, Imported, Scrubbed, Released, ImportKeys;
    var p, m, rest := k.loaded[handle].identifier, k.loaded[handle].payload.manifest, Forgotten(k, handle);
    var after := Unregistered(rest, p, m);
    forall h | h in after.loaded && after.loaded[h].payload.Plugin?
      ensures RecordReflected(after, after.loaded[h])
    {
      var q, other := k.loaded[h].identifier, k.loaded[h].payload.manifest;
      assert RecordReflected(k, k.loaded[h]);
      ScrubLeaves(k.rows, p, q, other);
      ReleaseLeavesImports(k.importOwners, p, ImportKeys(p, m), q, other);
    }
  }

  lemma {:induction false} RemovedReflected(k: KernelState, handle: nat)
    requires Inv(k) && Reflected(k) && handle in k.loaded && Removed(k, handle).Some?
    ensures Reflected(Removed(k, handle).value)
  {
    hide Inv, Reflected, Unregistered;
    var record, after := k.loaded[handle], Removed(k, handle).value;
    if record.payload.Plugin? {
      UnregisterReflected(k, handle);
      var scrubbed := Unregistered(Forgotten(k, handle), record.identifier, record.payload.manifest);
      ReflectedIgnoresTheRest(scrubbed, after);
    } else {
      ReflectedIgnoresTheRest(k, after);
    }
  }

  lemma {:induction false} UnloadReflected(k: KernelState, handle: nat)
    requires Inv(k) && Reflected(k)
    ensures Reflected(Unload(k, handle).0)
  {
    hide Inv, Reflected, Unregistered;
    if Unload(k, handle).1.Ok? {
      RemovedReflected(k, handle);
      assert Unload(k, handle).0 == Removed(k, handle).value;
    } else {
      ReflectedIgnoresTheRest(k, Unload(k, handle).0);
    }
  }

  lemma {:induction false} ReloadReflected(k: KernelState, handle: nat, c: Classified)
    requires Inv(k) && Reflected(k)
    ensures Reflected(Reload(k, handle, c).0)
  {
    hide Inv, Reflected, Removed, RegisterClassified, RollBack, Tracked, RecordReflected;
    if handle in k.loaded && !k.loaded[handle].immutable && Removed(k, handle).Some? {
      var record, removed := k.loaded[handle], Removed(k, handle).value;
      RemovedKeeps(k, handle);
      RemovedReflected(k, handle);
      match RegisterClassified(removed, record.namespace, c, false) {
        case Ok((after, replacement)) =>
          ClassifiedReflected(removed, record.namespace, c, false);
          ClassifiedIsMutable(removed, record.namespace, c);
          TrackReflected(after, handle, replacement);
        case Err(_) =>
          if RollBack(removed, record).Ok? {
            RollBackReflected(k, removed, handle);
            TrackReflected(RollBack(removed, record).value, handle, record);
          }
      }
    }
  }

  lemma {:induction false} ClassifiedIsMutable(k: KernelState, namespace: string, c: Classified)
    requires RegisterClassified(k, namespace, c, false).Ok?
    ensures var record := RegisterClassified(k, namespace, c, false).value.1; record.(immutable := false) == record
  {
    hide Rejection, Registered, Qualify;
  }

  lemma {:induction false} RollBackReflected(k: KernelState, removed: KernelState, handle: nat)
    requires Inv(k) && handle in k.loaded && !k.loaded[handle].immutable && Inv(removed) && Reflected(removed)
    requires RollBack(removed, k.loaded[handle]).Ok?
    ensures var after, record := RollBack(removed, k.loaded[handle]).value, k.loaded[handle];
      Reflected(after) && (record.payload.Plugin? ==> RecordReflected(after, record))
  {
    hide Sound, Distinct, UsersSound, Reflected, RecordReflected, Qualify, Registered, Rejection, ImportKeys;
    var record := k.loaded[handle];
    assert Recorded(k, handle);
    match record.payload {
      case SpiDef(definition) =>
        ReflectedIgnoresTheRest(removed, RollBack(removed, record).value);
      case Plugin(m) =>
        RegisterReflected(removed, record.namespace, m, false);
    }
  }

  lemma {:induction false} LoadReflected(k: KernelState, namespace: string, c: Classified, immutable: bool)
    requires Inv(k) && Reflected(k) && Load(k, namespace, c, immutable).Ok?
    ensures Reflected(Load(k, namespace, c, immutable).value.0)
  {
    hide Inv, Reflected, WellFormed, Reflects, Imported, RegisterClassified, Tracked;
    ClassifiedReflected(k, namespace, c, immutable);
    var (after, record) := RegisterClassified(k, namespace, c, immutable).value;
    var counted := after.(nextId := SaturatingAdd(k.nextId, 1));
    ReflectedIgnoresTheRest(after, counted);
    TrackReflected(counted, k.nextId, record.(immutable := immutable));
  }

  lemma {:induction false} ApplyReflected(k: KernelState, op: Op)
    requires Inv(k) && Reflected(k)
    ensures Reflected(Apply(k, op))
  {
    hide Inv, Reflected, RecordReflected, Load, Unload, Reload, Registered, Rejection;
    match op {
      case DoLoad(namespace, c, immutable) =>
        if Load(k, namespace, c, immutable).Ok? {
          LoadReflected(k, namespace, c, immutable);
        }
      case DoRegister(namespace, m) =>
        if Rejection(k, namespace, m, false).None? {
          RegisterReflected(k, namespace, m, false);
        }
      case DoRegisterSpi(key, definition) =>
        ReflectedIgnoresTheRest(k, Apply(k, op));
      case DoUnload(handle) =>
        UnloadReflected(k, handle);
      case DoReload(handle, c) =>
        ReloadReflected(k, handle, c);
    }
  }

  lemma {:induction false} AfterReflects(k: KernelState, ops: seq<Op>)
    requires Inv(k) && Reflected(k)
    ensures Inv(After(k, ops)) && Reflected(After(k, ops))
  {
    hide Inv, Apply, Reflected;
    AfterKeeps(k, ops);
    if ops != [] {
      AfterReflects(k, ops[..|ops| - 1]);
      ApplyReflected(After(k, ops[..|ops| - 1]), ops[|ops| - 1]);
    }
  }

  /** In every reachable state each loaded plugin has exactly the rows, imports and subscriptions of its manifest. */
  lemma {:induction false} EveryStateReflects(ownChecks: OwnChecks, ops: seq<Op>)
    ensures Inv(Run(ownChecks, ops)) && Reflected(Run(ownChecks, ops))
  {
    hide Inv, After;
    StartKeeps(ownChecks);
    AfterReflects(Start(ownChecks), ops);
  }

  // ------------------------------------------------------------ when a rollback succeeds

  /** Taking a plugin out frees every slot and import its manifest claims. */
  lemma {:induction false} RemovalFrees(k: KernelState, record: Record)
    requires Inv(k) && record.payload.Plugin? && RecordReflected(k, record)
    ensures var p, m := record.identifier, record.payload.manifest;
      var rows := Scrubbed(k.rows, p);
      && p !in rows.manifests && AliasesSound(rows.aliases, p, m) && DefsFree(rows.stepTypeDefs, p, m)
      && ImplsFree(rows.stepTypeImpls, p, m)
      && ImportsFree(Released(k.importOwners, ImportKeys(p, m), p), p, ImportKeys(p, m))
  {
    hide Inv, Sift, Keep, Released, ImportKeys, StepTypeKey, Insert, Reflects, ValidateName, ValidateNamespace;
    var p, m := record.identifier, record.payload.manifest;
    OwnRows(k.rows, p, m);
    var keys := ImportKeys(p, m);
    forall i | 0 <= i < |keys|
      ensures keys[i] !in Released(k.importOwners, keys, p)
    {
      assert keys[i] in keys;
      ReleasedIs(k.importOwners, keys, p, keys[i]);
    }
  }

  /** The row of each slot the manifest claims is this plugin's. */
  lemma {:induction false} OwnRows(r: Rows, p: string, m: Manifest)
    requires Reflects(r, p, m)
    ensures forall i | 0 <= i < |m.stepTypes| ::
      StepTypeKey(p, m.stepTypes[i].0) !in Drop(r.aliases, ValueOwner<string, string>, p)
    ensures forall i | 0 <= i < |m.stepTypeDefs| ::
      StepTypeKey(p, m.stepTypeDefs[i].name) !in Drop(r.stepTypeDefs, ValueOwner<string, StepTypeDef>, p)
    ensures forall i | 0 <= i < |m.stepTypeImpls| && m.stepTypeImpls[i].kind.Wasm? ::
      (StepTypeKey(p, m.stepTypeImpls[i].stepType), m.stepTypeImpls[i].selector) !in
        Drop(r.stepTypeImpls, ValueOwner<ImplKey, string>, p)
  {
    hide StepTypeKey, Insert, Only, Drop, Subscribed, ImplRows;
    var aliases, defs, impls := AliasRows(p, m.stepTypes), DefRows(p, m.stepTypeDefs), ImplRows(p, m.stepTypeImpls);
    OnlyIsNotDropped(r.aliases, aliases, ValueOwner<string, string>, p);
    OnlyIsNotDropped(r.stepTypeDefs, defs, ValueOwner<string, StepTypeDef>, p);
    OnlyIsNotDropped(r.stepTypeImpls, impls, ValueOwner<ImplKey, string>, p);
    forall i | 0 <= i < |m.stepTypes|
      ensures StepTypeKey(p, m.stepTypes[i].0) !in Drop(r.aliases, ValueOwner<string, string>, p)
    {
      assert aliases[i].0 == StepTypeKey(p, m.stepTypes[i].0);
    }
    forall i | 0 <= i < |m.stepTypeDefs|
      ensures StepTypeKey(p, m.stepTypeDefs[i].name) !in Drop(r.stepTypeDefs, ValueOwner<string, StepTypeDef>, p)
    {
      assert defs[i].0 == StepTypeKey(p, m.stepTypeDefs[i].name);
    }
    forall i | 0 <= i < |m.stepTypeImpls| && m.stepTypeImpls[i].kind.Wasm?
      ensures (StepTypeKey(p, m.stepTypeImpls[i].stepType), m.stepTypeImpls[i].selector) !in
        Drop(r.stepTypeImpls, ValueOwner<ImplKey, string>, p)
    {
      ImplRowsHave(p, m.stepTypeImpls, i);
    }
  }

  lemma {:induction false} InsertHas<K(!new), V(!new)>(m: map<K, V>, rows: seq<(K, V)>)
    ensures forall i | 0 <= i < |rows| :: rows[i].0 in Insert(m, rows)
  {
    if rows != [] {
      InsertHas(m, rows[..|rows| - 1]);
    }
  }

  lemma {:induction false} OnlyIsNotDropped<K(!new), V(!new)>(m: map<K, V>, rows: seq<(K, V)>, owner: (K, V) -> string,
                                                              p: string)
    requires Only(m, owner, p) == Insert(map[], rows)
    ensures forall i | 0 <= i < |rows| :: rows[i].0 !in Drop(m, owner, p)
  {
    hide Insert;
    InsertHas(map[], rows);
    assert forall i | 0 <= i < |rows| :: rows[i].0 in Only(m, owner, p);
  }

  lemma {:induction false} ImplRowsHave(p: string, impls: seq<StepTypeImpl>, j: nat)
    requires j < |impls| && impls[j].kind.Wasm?
    ensures exists i ::
      0 <= i < |ImplRows(p, impls)| && ImplRows(p, impls)[i].0 == (StepTypeKey(p, impls[j].stepType), impls[j].selector)
  {
    if j < |impls| - 1 {
      ImplRowsHave(p, impls[..|impls| - 1], j);
      var rest := ImplRows(p, impls[..|impls| - 1]);
      var i :| 0 <= i < |rest| && rest[i].0 == (StepTypeKey(p, impls[j].stepType), impls[j].selector);
      assert ImplRows(p, impls)[i] == rest[i];
    } else {
      var all := ImplRows(p, impls);
      assert all[|all| - 1].0 == (StepTypeKey(p, impls[j].stepType), impls[j].selector);
    }
  }

  /**
   * What registration asks of everybody else, asked again of a plugin just taken out: the contracts its roles resolve
   * to now, the script runtimes and definitions others provide, the targets it refers to, and no cycle through the
   * aliases as they resolve now.
   */
  ghost predicate Restorable(k: KernelState, record: Record)
    requires record.payload.Plugin?
  {
    var p, m := record.identifier, record.payload.manifest;
    var rows := Scrubbed(k.rows, p);
    && MeetsContracts(k.spi, record.namespace, m)
    && ScriptsRun(rows.stepTypeImpls, m)
    && ReferencesKnown(rows, p, m)
    && Acyclic(rows.invokeEdges + NewEdges(rows, p, m))
    && ImplsDefined(rows.stepTypeDefs, p, m)
  }

  /** No check on the manifest alone and no slot can refuse the old manifest: only what others have to provide can. */
  lemma {:induction false} OnlyOthersRefuse(k: KernelState, handle: nat)
    requires Inv(k) && Reflected(k) && handle in k.loaded && k.loaded[handle].payload.Plugin? &&
      !k.loaded[handle].immutable
    ensures Removed(k, handle).Some?
    ensures var record := k.loaded[handle];
      Rejection(Removed(k, handle).value, record.namespace, record.payload.manifest, false).None? <==>
        Restorable(k, record)
  {
    hide Sound, Distinct, UsersSound, Qualify, NewEdges, ImportKeys, Acyclic, ValidateName, ValidateNamespace, Released,
      Scrubbed, MeetsContracts, ScriptsRun, ReferencesKnown, ImplsDefined, AliasesSound, ImportsFree, DefsFree,
      ImplsFree, Reflects, Imported, WithoutUser;
    assert Recorded(k, handle) && RecordReflected(k, k.loaded[handle]);
    RemovalFrees(k, k.loaded[handle]);
  }

  // ------------------------------------------------------------ what a rollback restores

  ghost predicate SameKeyed(a: Rows, b: Rows)
  {
    && a.modules == b.modules && a.manifests == b.manifests && a.permissions == b.permissions
    && a.wasmModules == b.wasmModules && a.aliases == b.aliases && a.stepTypeDefs == b.stepTypeDefs
    && a.stepTypeImpls == b.stepTypeImpls
  }

  /** The entries of `p` behind all the others of their bucket. */
  ghost predicate MovedBack(before: Buckets<(string, string)>, after: Buckets<(string, string)>, p: string)
  {
    forall event :: Bucket(after, event) ==
      Keep(Bucket(before, event), SubscriberOwner, p) + Mine(Bucket(before, event), SubscriberOwner, p)
  }

  /** `p` out of every role it had, and last in each of `keys`. */
  ghost predicate Rebound(before: Buckets<string>, after: Buckets<string>, p: string, keys: seq<string>)
  {
    forall key :: Bucket(after, key) == Keep(Bucket(before, key), RoleOwner, p) + if key in keys then [p] else []
  }

  ghost predicate Reclaimed(before: map<string, set<nat>>, after: map<string, set<nat>>, handle: nat, keys: seq<string>)
  {
    forall key :: UsersOf(after, key) == UsersOf(before, key) - {handle} + if key in keys then {handle} else {}
  }

  /** The old state, with the plugin last wherever order is kept, and bound to roles and aliases as they resolve now. */
  ghost predicate Restored(k: KernelState, handle: nat, after: KernelState)
    requires handle in k.loaded && k.loaded[handle].payload.Plugin?
  {
    var p, m := k.loaded[handle].identifier, k.loaded[handle].payload.manifest;
    var keys := RoleKeysFor(k.spi, k.loaded[handle].namespace, m.roles);
    && after.ownChecks == k.ownChecks && after.spi == k.spi && after.loaded == k.loaded && after.nextId == k.nextId
    && after.importOwners == k.importOwners
    && SameKeyed(after.rows, k.rows)
    && MovedBack(k.rows.subscriptions, after.rows.subscriptions, p)
    && Rebound(k.rows.roles, after.rows.roles, p, keys)
    && Reclaimed(k.roleUsers, after.roleUsers, handle, keys)
    && after.rows.invokeEdges == Keep(k.rows.invokeEdges, EdgeOwner, p) + NewEdges(Scrubbed(k.rows, p), p, m)
  }

  lemma {:induction false} KeyedRestored(r: Rows, p: string, m: Manifest, edges: seq<InvokeEdge>, roleKeys: seq<string>)
    requires Reflects(r, p, m)
    ensures SameKeyed(Committed(Scrubbed(r, p), p, m, edges, roleKeys), r)
  {
    hide Insert, Only, Drop, Sift, Keep, SubscribeAll, PushRoles, Subscribed;
    InsertUndoesDrop(r.modules, ActionRows(p, m.actions), KeyOwner<ActionDef>, p);
    InsertUndoesDrop(r.wasmModules, ModuleRows(p, m.wasmModules), KeyOwner<string>, p);
    InsertUndoesDrop(r.aliases, AliasRows(p, m.stepTypes), ValueOwner<string, string>, p);
    InsertUndoesDrop(r.stepTypeDefs, DefRows(p, m.stepTypeDefs), ValueOwner<string, StepTypeDef>, p);
    InsertUndoesDrop(r.stepTypeImpls, ImplRows(p, m.stepTypeImpls), ValueOwner<ImplKey, string>, p);
  }

  lemma {:induction false} SubscriptionsRestored(subs: Buckets<(string, string)>, p: string, m: Manifest)
    requires Subscribed(subs, p, m)
    ensures MovedBack(subs, SubscribeAll(Sift(subs, SubscriberOwner, p), p, m.actions), p)
  {
    hide Sift, Keep, Mine, SubscribeAll;
    var sifted := Sift(subs, SubscriberOwner, p);
    SiftIsNone(subs, p);
    SubscribeAllAppends(sifted, p, m.actions);
    forall event
      ensures Bucket(SubscribeAll(sifted, p, m.actions), event) ==
        Keep(Bucket(subs, event), SubscriberOwner, p) + Mine(Bucket(subs, event), SubscriberOwner, p)
    {
      SiftBucket(subs, SubscriberOwner, p, event);
    }
  }

  lemma {:induction false} SiftIsNone(subs: Buckets<(string, string)>, p: string)
    ensures NoneOf(Sift(subs, SubscriberOwner, p), p)
  {
    hide Keep;
    forall event, s | event in subs && s in Keep(subs[event], SubscriberOwner, p)
      ensures SubscriberOwner(s) != p
    {
      KeepHas(subs[event], SubscriberOwner, p);
    }
  }

  lemma {:induction false} RolesRebound(roles: Buckets<string>, p: string, keys: seq<string>)
    requires AllDifferent(keys)
    ensures Rebound(roles, PushRoles(Sift(roles, RoleOwner, p), keys, p), p, keys)
  {
    hide Sift, Keep, PushRoles;
    forall key
      ensures Bucket(PushRoles(Sift(roles, RoleOwner, p), keys, p), key) ==
        Keep(Bucket(roles, key), RoleOwner, p) + if key in keys then [p] else []
    {
      SiftBucket(roles, RoleOwner, p, key);
      PushedRoles(Sift(roles, RoleOwner, p), keys, p, key);
    }
  }

  lemma {:induction false} UsersReclaimed(users: map<string, set<nat>>, handle: nat, keys: seq<string>)
    ensures Reclaimed(users, WithUser(WithoutUser(users, handle), keys, handle), handle, keys)
  {
    hide WithUser;
    forall key
      ensures UsersOf(WithUser(WithoutUser(users, handle), keys, handle), key) ==
        UsersOf(users, key) - {handle} + if key in keys then {handle} else {}
    {
      WithUserIs(WithoutUser(users, handle), keys, handle, key);
    }
  }

  lemma {:induction false} ImportsRestored(owners: map<string, string>, p: string, m: Manifest)
    requires Imported(owners, p, m)
    ensures Claimed(Released(owners, ImportKeys(p, m), p), ImportKeys(p, m), p) == owners
  {
    hide Claimed, Released, ImportKeys;
    var keys := ImportKeys(p, m);
    var released := Released(owners, keys, p);
    forall key
      ensures key in Claimed(released, keys, p) <==> key in owners
      ensures key in owners ==> Claimed(released, keys, p)[key] == owners[key]
    {
      ReleasedIs(owners, keys, p, key);
      ClaimedIs(released, keys, p, key);
    }
  }

  lemma {:induction false} RollBackRestores(k: KernelState, handle: nat)
    requires Inv(k) && Reflected(k) && handle in k.loaded && k.loaded[handle].payload.Plugin? &&
      Removed(k, handle).Some?
    ensures var record := k.loaded[handle];
      Restored(k, handle,
        Tracked(Registered(Removed(k, handle).value, record.namespace, record.payload.manifest), handle, record))
  {
    hide Sound, Distinct, UsersSound, WellFormed, Reflects, Imported, Qualify, NewEdges, ImportKeys, RoleKeysFor,
      SameKeyed, MovedBack, Rebound, Reclaimed, Claimed, Released, WithUser, WithoutUser, SubscribeAll, PushRoles, Sift,
      Keep, Insert, Drop;
    assert Recorded(k, handle) && RecordReflected(k, k.loaded[handle]);
    var record := k.loaded[handle];
    var p, m := record.identifier, record.payload.manifest;
    var keys := RoleKeysFor(k.spi, record.namespace, m.roles);
    var rows := Scrubbed(k.rows, p);
    KeyedRestored(k.rows, p, m, NewEdges(rows, p, m), keys);
    ReflectsSubscribed(k.rows, p, m);
    SubscriptionsRestored(k.rows.subscriptions, p, m);
    RoleKeysDiffer(k.spi, record.namespace, m.roles);
    RolesRebound(k.rows.roles, p, keys);
    UsersReclaimed(k.roleUsers, handle, keys);
    ImportsRestored(k.importOwners, p, m);
    assert (k.loaded - {handle})[handle := record] == k.loaded;
  }

  lemma {:induction false} ReflectsSubscribed(r: Rows, p: string, m: Manifest)
    requires Reflects(r, p, m)
    ensures Subscribed(r.subscriptions, p, m)
  {
  }

  /**
   * A reload whose replacement is refused. When what the old plugin needs of others is still there, the answer is the
   * replacement's error and the old state is back; otherwise the plugin and its handle are gone and nothing else
   * changed.
   */
  lemma {:induction false} RefusedReload(ownChecks: OwnChecks, ops: seq<Op>, handle: nat, c: Classified)
    requires var k := Run(ownChecks, ops);
      && handle in k.loaded && k.loaded[handle].payload.Plugin? && !k.loaded[handle].immutable
      && (Removed(k, handle).Some? ==>
        RegisterClassified(Removed(k, handle).value, k.loaded[handle].namespace, c, false).Err?)
    ensures var k := Run(ownChecks, ops);
      var record, (after, answer) := k.loaded[handle], Reload(k, handle, c);
      && Removed(k, handle).Some?
      && (if Restorable(k, record)
          then Restored(k, handle, after) &&
               answer == Err(RegisterClassified(Removed(k, handle).value, record.namespace, c, false).error)
          else answer == Err(RollbackFailed) && after == Removed(k, handle).value &&
               handle !in after.loaded && record.identifier !in after.rows.manifests)
  {
    hide Sound, Distinct, UsersSound, Reflected, RegisterClassified, Rejection, Qualify, Restorable, Restored,
      Registered, RoleKeysFor, Released, WithUser, WithoutUser, ImportKeys, Sift, Keep, Drop;
    var k := Run(ownChecks, ops);
    EveryStateReflects(ownChecks, ops);
    OnlyOthersRefuse(k, handle);
    assert Recorded(k, handle);
    RollBackRestores(k, handle);
  }

  /**
   * A refused reload of a contract always keeps its handle, but puts back the definition that handle was loaded with.
   * The state is as before exactly when that is the definition in force and the handle claimed no role.
   */
  lemma {:induction false} RefusedContractReload(k: KernelState, handle: nat, c: Classified)
    requires Inv(k) && handle in k.loaded && k.loaded[handle].payload.SpiDef? && !k.loaded[handle].immutable
    requires Removed(k, handle).Some? &&
      RegisterClassified(Removed(k, handle).value, k.loaded[handle].namespace, c, false).Err?
    ensures var record, (after, answer) := k.loaded[handle], Reload(k, handle, c);
      && answer == Err(RegisterClassified(Removed(k, handle).value, record.namespace, c, false).error)
      && after.loaded == k.loaded && after.rows == k.rows
      && after.spi == k.spi[record.identifier := record.payload.definition]
      && (after == k <==> k.spi[record.identifier] == record.payload.definition &&
                          forall key | key in k.roleUsers :: handle !in k.roleUsers[key])
  {
    hide Sound, Distinct, Recorded, RegisterClassified;
    var record := k.loaded[handle];
    var key, definition := record.identifier, record.payload.definition;
    WithoutAfterWith(k.roleUsers, [], handle);
    assert (k.loaded - {handle})[handle := record] == k.loaded;
    assert (k.spi - {key})[key := definition] == k.spi[key := definition];
    assert k.spi[key := definition] == k.spi <==> k.spi[key] == definition;
  }
}

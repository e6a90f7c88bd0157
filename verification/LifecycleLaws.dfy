/** What every sequence of loads, unloads and reloads keeps, and what a load followed by its unload restores. */
module LifecycleLaws {
  import opened Admission
  import opened Identity
  import opened Indices
  import opened InvokeGraph
  import opened Lifecycle
  import opened Machine
  import opened Registry
  import opened Wrappers

  /** Rows and linker imports belong to registered plugins, and the recorded invoke edges form no cycle. */
  ghost predicate Sound(k: KernelState)
  {
    && Owned(k.rows)
    && Acyclic(k.rows.invokeEdges)
    && forall key | key in k.importOwners :: k.importOwners[key] in k.rows.manifests
  }

  /** A loaded plugin is registered under its record's name, and the imports it owns are those its manifest claims. */
  ghost predicate Recorded(k: KernelState, handle: nat)
    requires handle in k.loaded
  {
    var record := k.loaded[handle];
    record.payload.Plugin? ==>
      && record.identifier == Qualify(record.namespace, record.payload.manifest.name)
      && record.identifier in k.rows.manifests
      && forall key | key in k.importOwners && k.importOwners[key] == record.identifier ::
           key in ImportKeys(record.identifier, record.payload.manifest)
  }

  /** No two handles stand for the same plugin. */
  ghost predicate Distinct(loaded: map<nat, Record>)
  {
    forall a, b | a in loaded && b in loaded && a != b && loaded[a].payload.Plugin? && loaded[b].payload.Plugin? ::
      loaded[a].identifier != loaded[b].identifier
  }

  /** Handles come from the counter, which stands still once it is exhausted. */
  predicate Issued(handle: nat, nextId: nat)
  {
    handle < nextId || nextId == USIZE_MAX
  }

  ghost predicate UsersSound(k: KernelState)
  {
    forall key | key in k.roleUsers :: k.roleUsers[key] != {} && forall h | h in k.roleUsers[key] :: Issued(h, k.nextId)
  }

  ghost predicate Inv(k: KernelState)
  {
    && Sound(k)
    && (forall h | h in k.loaded :: Recorded(k, h) && Issued(h, k.nextId))
    && Distinct(k.loaded)
    && UsersSound(k)
  }

  // ------------------------------------------------------------ registering and unregistering

  lemma {:induction false} RegisterKeepsSound(k: KernelState, namespace: string, m: Manifest, kernelOwned: bool)
    requires Sound(k) && Rejection(k, namespace, m, kernelOwned).None?
    ensures var p, after := Qualify(namespace, m.name), Registered(k, namespace, m);
      && Sound(after)
      && p !in k.rows.manifests
      && after.rows.manifests.Keys == k.rows.manifests.Keys + {p}
  {
    hide Owned, Acyclic, ImportKeys, NewEdges, Qualify;
    var p := Qualify(namespace, m.name);
    var after := Registered(k, namespace, m);
    CommitKeepsOwned(k.rows, p, m, NewEdges(k.rows, p, m), RoleKeysFor(k.spi, namespace, m.roles));
    forall key | key in after.importOwners
      ensures after.importOwners[key] in after.rows.manifests
    {
      ClaimedIs(k.importOwners, ImportKeys(p, m), p, key);
    }
  }

  /** The imports of a plugin not yet registered are free, so the claim changes nobody else's. */
  lemma {:induction false} ImportsUnclaimed(k: KernelState, namespace: string, m: Manifest, kernelOwned: bool,
                                            key: string)
    requires Sound(k) && Rejection(k, namespace, m, kernelOwned).None? && key in k.importOwners
    ensures key !in ImportKeys(Qualify(namespace, m.name), m) && k.importOwners[key] != Qualify(namespace, m.name)
  {
    hide Owned, Acyclic, ImportKeys, NewEdges, Qualify;
    var keys := ImportKeys(Qualify(namespace, m.name), m);
    assert forall i | 0 <= i < |keys| :: keys[i] in k.importOwners ==> k.importOwners[keys[i]] in k.rows.manifests;
  }

  lemma {:induction false} UnregisterKeepsSound(k: KernelState, p: string, m: Manifest)
    requires Sound(k)
    requires forall key | key in k.importOwners && k.importOwners[key] == p :: key in ImportKeys(p, m)
    ensures Sound(Unregistered(k, p, m)) && Unregistered(k, p, m).rows.manifests.Keys == k.rows.manifests.Keys - {p}
  {
    hide Owned, Acyclic, ImportKeys;
    var after := Unregistered(k, p, m);
    ScrubKeepsOwned(k.rows, p);
    KeepHas(k.rows.invokeEdges, EdgeOwner, p);
    FewerEdgesStayAcyclic(k.rows.invokeEdges, after.rows.invokeEdges);
    forall key | key in after.importOwners
      ensures after.importOwners[key] in after.rows.manifests
    {
      ReleasedIs(k.importOwners, ImportKeys(p, m), p, key);
    }
  }

  // ------------------------------------------------------------ users of roles

  lemma {:induction false} WithUserIs(users: map<string, set<nat>>, keys: seq<string>, handle: nat, key: string)
    ensures key in WithUser(users, keys, handle) <==> key in users || key in keys
    ensures UsersOf(WithUser(users, keys, handle), key) == UsersOf(users, key) + if key in keys then {handle} else {}
  {
    if keys != [] {
      WithUserIs(users, keys[..|keys| - 1], handle, key);
      assert keys == keys[..|keys| - 1] + [keys[|keys| - 1]];
    }
  }

  lemma {:induction false} WithoutUndoesWith(users: map<string, set<nat>>, keys: seq<string>, handle: nat)
    requires forall key | key in users :: users[key] != {} && handle !in users[key]
    ensures WithoutUser(WithUser(users, keys, handle), handle) == users
  {
    var with := WithUser(users, keys, handle);
    forall key
      ensures key in WithoutUser(with, handle) <==> key in users
      ensures key in users ==> WithoutUser(with, handle)[key] == users[key]
    {
      WithUserIs(users, keys, handle, key);
      assert UsersOf(with, key) - {handle} == UsersOf(users, key);
    }
  }

  // ------------------------------------------------------------ what each transition keeps

  /** Fit to be tracked: an SPI definition, or a plugin registered under this record alone. */
  ghost predicate Trackable(k: KernelState, record: Record)
  {
    record.payload.Plugin? ==>
      && record.identifier == Qualify(record.namespace, record.payload.manifest.name)
      && record.identifier in k.rows.manifests
      && (forall key | key in k.importOwners && k.importOwners[key] == record.identifier ::
            key in ImportKeys(record.identifier, record.payload.manifest))
      && forall h | h in k.loaded && k.loaded[h].payload.Plugin? :: k.loaded[h].identifier != record.identifier
  }

  lemma {:induction false} TrackKeeps(k: KernelState, handle: nat, record: Record)
    requires Inv(k) && Issued(handle, k.nextId) && Trackable(k, record)
    ensures Inv(Tracked(k, handle, record))
  {
    hide Sound, ImportKeys, Qualify, RoleKeysFor;
    var after := Tracked(k, handle, record);
    forall h | h in after.loaded
      ensures Recorded(after, h)
    {
      assert h != handle ==> Recorded(k, h);
    }
    assert UsersSound(after) by {
      if record.payload.Plugin? {
        var keys := RoleKeysFor(k.spi, record.namespace, record.payload.manifest.roles);
        forall key | key in after.roleUsers
          ensures after.roleUsers[key] != {} && forall h | h in after.roleUsers[key] :: Issued(h, k.nextId)
        {
          WithUserIs(k.roleUsers, keys, handle, key);
        }
      }
    }
    assert Sound(after) by { SoundIgnoresTracking(k, after); }
  }

  lemma {:induction false} SoundIgnoresTracking(k: KernelState, after: KernelState)
    requires Sound(k) && after.rows == k.rows && after.importOwners == k.importOwners
    ensures Sound(after)
  {
  }

  lemma {:induction false} ForgetKeeps(k: KernelState, handle: nat)
    requires Inv(k)
    ensures Inv(Forgotten(k, handle))
  {
    hide ImportKeys, Qualify;
    SoundIgnoresTracking(k, Forgotten(k, handle));
    forall h | h in Forgotten(k, handle).loaded
      ensures Recorded(Forgotten(k, handle), h)
    {
      assert Recorded(k, h);
    }
  }

  lemma {:induction false} UntrackKeeps(k: KernelState, handle: nat)
    requires Inv(k)
    ensures Inv(Untracked(k, handle))
  {
    hide ImportKeys, Qualify;
    SoundIgnoresTracking(k, Untracked(k, handle));
    forall h | h in k.loaded
      ensures Recorded(Untracked(k, handle), h)
    {
      assert Recorded(k, h);
    }
  }

  lemma {:induction false} CountKeeps(k: KernelState)
    requires Inv(k)
    ensures Inv(k.(nextId := SaturatingAdd(k.nextId, 1))) && Issued(k.nextId, SaturatingAdd(k.nextId, 1))
  {
    hide ImportKeys, Qualify;
    var after := k.(nextId := SaturatingAdd(k.nextId, 1));
    SoundIgnoresTracking(k, after);
    forall h | h in k.loaded
      ensures Recorded(after, h)
    {
      assert Recorded(k, h);
    }
  }

  lemma {:induction false} RegisterKeeps(k: KernelState, namespace: string, m: Manifest, kernelOwned: bool)
    requires Inv(k) && Rejection(k, namespace, m, kernelOwned).None?
    ensures var p, after := Qualify(namespace, m.name), Registered(k, namespace, m);
      && Inv(after)
      && after.loaded == k.loaded && p in after.rows.manifests
      && (forall key | key in after.importOwners && after.importOwners[key] == p :: key in ImportKeys(p, m))
      && forall h | h in k.loaded && k.loaded[h].payload.Plugin? :: k.loaded[h].identifier != p
  {
    hide Sound, ImportKeys, Qualify, NewEdges, RoleKeysFor, Committed, Rejection;
    var p, after := Qualify(namespace, m.name), Registered(k, namespace, m);
    RegisterKeepsSound(k, namespace, m, kernelOwned);
    forall h | h in k.loaded
      ensures Recorded(after, h)
      ensures k.loaded[h].payload.Plugin? ==> k.loaded[h].identifier != p
    {
      assert Recorded(k, h);
      forall key | key in after.importOwners && after.importOwners[key] == k.loaded[h].identifier
        ensures key in k.importOwners || after.importOwners[key] == p
      {
        ClaimedIs(k.importOwners, ImportKeys(p, m), p, key);
      }
      forall key | key in k.importOwners
        ensures key in after.importOwners ==>
          after.importOwners[key] == k.importOwners[key] || after.importOwners[key] == p
      {
        ClaimedIs(k.importOwners, ImportKeys(p, m), p, key);
      }
    }
    forall key | key in after.importOwners && after.importOwners[key] == p
      ensures key in ImportKeys(p, m)
    {
      ClaimedIs(k.importOwners, ImportKeys(p, m), p, key);
      if key in k.importOwners {
        ImportsUnclaimed(k, namespace, m, kernelOwned, key);
      }
    }
  }

  lemma {:induction false} UnregisterKeeps(k: KernelState, handle: nat)
    requires Inv(k) && handle in k.loaded && k.loaded[handle].payload.Plugin?
    ensures var record := k.loaded[handle];
      var after := Unregistered(Forgotten(k, handle), record.identifier, record.payload.manifest);
      Inv(after) && after.loaded == k.loaded - {handle} && after.nextId == k.nextId
  {
    hide Sound, ImportKeys, Qualify, Scrubbed;
    var record := k.loaded[handle];
    var p, m := record.identifier, record.payload.manifest;
    assert Recorded(k, handle);
    ForgetKeeps(k, handle);
    var rest := Forgotten(k, handle);
    var after := Unregistered(rest, p, m);
    UnregisterKeepsSound(rest, p, m);
    forall h | h in after.loaded
      ensures Recorded(after, h)
    {
      assert Recorded(k, h);
      forall key | key in after.importOwners
        ensures key in k.importOwners && after.importOwners[key] == k.importOwners[key]
      {
        ReleasedIs(k.importOwners, ImportKeys(p, m), p, key);
      }
    }
  }

  lemma {:induction false} SpiKeeps(k: KernelState, spi: map<string, Contract>)
    requires Inv(k)
    ensures Inv(k.(spi := spi))
  {
    hide ImportKeys, Qualify;
    var after := k.(spi := spi);
    SoundIgnoresTracking(k, after);
    forall h | h in k.loaded
      ensures Recorded(after, h)
    {
      assert Recorded(k, h);
    }
  }

  lemma {:induction false} ClassifiedKeeps(k: KernelState, namespace: string, c: Classified, kernelOwned: bool)
    requires Inv(k) && RegisterClassified(k, namespace, c, kernelOwned).Ok?
    ensures var (after, record) := RegisterClassified(k, namespace, c, kernelOwned).value;
      Inv(after) && Trackable(after, record) && after.loaded == k.loaded && after.nextId == k.nextId
  {
    hide Inv, ImportKeys, Qualify, Rejection, Registered;
    match c {
      case SpiDefinition(role, definition) =>
        SpiKeeps(k, k.spi[Qualify(namespace, role) := definition]);
      case PluginManifest(m) =>
        RegisterKeeps(k, namespace, m, kernelOwned);
        RegisteredFrame(k, namespace, m);
      case Unrecognised =>
    }
  }

  lemma {:induction false} RegisteredFrame(k: KernelState, namespace: string, m: Manifest)
    ensures var after := Registered(k, namespace, m);
      after.ownChecks == k.ownChecks && after.loaded == k.loaded && after.nextId == k.nextId && after.spi == k.spi
      && after.roleUsers == k.roleUsers
  {
  }

  lemma {:induction false} LoadKeeps(k: KernelState, namespace: string, c: Classified, immutable: bool)
    requires Inv(k) && Load(k, namespace, c, immutable).Ok?
    ensures Inv(Load(k, namespace, c, immutable).value.0)
  {
    hide Inv, RegisterClassified, Tracked, ImportKeys, Qualify;
    ClassifiedKeeps(k, namespace, c, immutable);
    var (after, record) := RegisterClassified(k, namespace, c, immutable).value;
    CountKeeps(after);
    TrackKeeps(after.(nextId := SaturatingAdd(k.nextId, 1)), k.nextId, record.(immutable := immutable));
  }

  lemma {:induction false} UnloadKeeps(k: KernelState, handle: nat)
    requires Inv(k)
    ensures Inv(Unload(k, handle).0)
  {
    hide Inv, Untracked, Unregistered, Forgotten;
    if handle in k.loaded {
      var record, rest := k.loaded[handle], Forgotten(k, handle);
      ForgetKeeps(k, handle);
      SpiKeeps(rest, rest.spi - {record.identifier});
      UntrackKeeps(rest.(spi := rest.spi - {record.identifier}), handle);
      if record.payload.Plugin? {
        UnregisterKeeps(k, handle);
        UntrackKeeps(Unregistered(rest, record.identifier, record.payload.manifest), handle);
      }
    }
  }

  lemma {:induction false} RemovedKeeps(k: KernelState, handle: nat)
    requires Inv(k) && handle in k.loaded && Removed(k, handle).Some?
    ensures var after := Removed(k, handle).value;
      Inv(after) && after.loaded == k.loaded - {handle} && after.nextId == k.nextId
  {
    hide Inv, Unregistered;
    var record, rest := k.loaded[handle], Forgotten(k, handle);
    ForgetKeeps(k, handle);
    SpiKeeps(rest, rest.spi - {record.identifier});
    UntrackKeeps(rest.(spi := rest.spi - {record.identifier}), handle);
    if record.payload.Plugin? {
      UnregisterKeeps(k, handle);
      UntrackKeeps(Unregistered(rest, record.identifier, record.payload.manifest), handle);
    }
  }

  lemma {:induction false} RollBackKeeps(k: KernelState, record: Record)
    requires Inv(k) && RollBack(k, record).Ok?
    requires record.payload.Plugin? ==> record.identifier == Qualify(record.namespace, record.payload.manifest.name)
    ensures var after := RollBack(k, record).value;
      Inv(after) && Trackable(after, record) && after.loaded == k.loaded && after.nextId == k.nextId
  {
    hide Inv, ImportKeys, Qualify, Rejection, Registered;
    match record.payload {
      case SpiDef(definition) =>
        SpiKeeps(k, k.spi[record.identifier := definition]);
      case Plugin(m) =>
        RegisterKeeps(k, record.namespace, m, false);
        RegisteredFrame(k, record.namespace, m);
    }
  }

  lemma {:induction false} HandleIssued(k: KernelState, handle: nat)
    requires Inv(k) && handle in k.loaded
    ensures Issued(handle, k.nextId) && Recorded(k, handle)
  {
  }

  lemma {:induction false} ReloadKeeps(k: KernelState, handle: nat, c: Classified)
    requires Inv(k)
    ensures Inv(Reload(k, handle, c).0)
  {
    hide Inv, Removed, RegisterClassified, RollBack, Tracked, Issued, ImportKeys, Qualify;
    if handle in k.loaded && Removed(k, handle).Some? {
      var record, removed := k.loaded[handle], Removed(k, handle).value;
      HandleIssued(k, handle);
      RemovedKeeps(k, handle);
      match RegisterClassified(removed, record.namespace, c, false) {
        case Ok((after, replacement)) =>
          ClassifiedKeeps(removed, record.namespace, c, false);
          TrackKeeps(after, handle, replacement);
        case Err(_) =>
          if RollBack(removed, record).Ok? {
            RollBackKeeps(removed, record);
            TrackKeeps(RollBack(removed, record).value, handle, record);
          }
      }
    }
  }

  // ------------------------------------------------------------ every reachable state

  /** What an embedder can do; a rejected operation is one too. */
  datatype Op =
    | DoLoad(namespace: string, c: Classified, immutable: bool)
    | DoRegister(namespace: string, m: Manifest)
    | DoRegisterSpi(key: string, definition: Contract)
    | DoUnload(handle: nat)
    | DoReload(handle: nat, c: Classified)

  function Start(ownChecks: OwnChecks): KernelState
  {
    KernelState(ownChecks, NoRows(), map[], map[], map[], map[], 1)
  }

  ghost function Apply(k: KernelState, op: Op): KernelState
  {
    match op
    case DoLoad(namespace, c, immutable) =>
      (match Load(k, namespace, c, immutable) case Ok((after, _)) => after case Err(_) => k)
    case DoRegister(namespace, m) =>
      (match RegisterPlugin(k, namespace, m, false) case Ok(after) => after case Err(_) => k)
    case DoRegisterSpi(key, definition) =>
      (match RegisterSpi(k, key, definition) case Ok(after) => after case Err(_) => k)
    case DoUnload(handle) => Unload(k, handle).0
    case DoReload(handle, c) => Reload(k, handle, c).0
  }

  ghost function After(k: KernelState, ops: seq<Op>): KernelState
  {
    if ops == [] then k else Apply(After(k, ops[..|ops| - 1]), ops[|ops| - 1])
  }

  ghost function Run(ownChecks: OwnChecks, ops: seq<Op>): KernelState
  {
    After(Start(ownChecks), ops)
  }

  lemma {:induction false} ApplyKeeps(k: KernelState, op: Op)
    requires Inv(k)
    ensures Inv(Apply(k, op))
  {
    hide Inv, Load, Unload, Reload, Registered, Rejection;
    match op {
      case DoLoad(namespace, c, immutable) =>
        if Load(k, namespace, c, immutable).Ok? {
          LoadKeeps(k, namespace, c, immutable);
        }
      case DoRegister(namespace, m) =>
        if Rejection(k, namespace, m, false).None? {
          RegisterKeeps(k, namespace, m, false);
        }
      case DoRegisterSpi(key, definition) =>
        SpiKeeps(k, k.spi[key := definition]);
      case DoUnload(handle) =>
        UnloadKeeps(k, handle);
      case DoReload(handle, c) =>
        ReloadKeeps(k, handle, c);
    }
  }

  lemma {:induction false} StartKeeps(ownChecks: OwnChecks)
    ensures Inv(Start(ownChecks))
  {
    forall p: seq<NodeRef>
      ensures !IsCycle([], p)
    {
      assert |p| >= 2 ==> InvokeEdge(p[1 - 1], p[1]) !in [];
    }
  }

  lemma {:induction false} AfterKeeps(k: KernelState, ops: seq<Op>)
    requires Inv(k)
    ensures Inv(After(k, ops))
  {
    hide Inv, Apply;
    if ops != [] {
      AfterKeeps(k, ops[..|ops| - 1]);
      ApplyKeeps(After(k, ops[..|ops| - 1]), ops[|ops| - 1]);
    }
  }

  /**
   * However manifests were registered, unloaded and reloaded, failures included: no row is orphaned and no invoke cycle
   * recorded.
   */
  lemma {:induction false} EveryStateIsSound(ownChecks: OwnChecks, ops: seq<Op>)
    ensures Inv(Run(ownChecks, ops))
  {
    hide Inv, After;
    StartKeeps(ownChecks);
    AfterKeeps(Start(ownChecks), ops);
  }

  // ------------------------------------------------------------ load and unload

  /** The next handle is nobody's. */
  ghost predicate FreshHandle(k: KernelState)
  {
    k.nextId !in k.loaded && forall key | key in k.roleUsers :: k.nextId !in k.roleUsers[key]
  }

  lemma {:induction false} HandlesAreFresh(k: KernelState)
    requires Inv(k) && k.nextId < USIZE_MAX
    ensures FreshHandle(k)
  {
    hide Sound, Recorded, Distinct;
  }

  lemma {:induction false} UnregisterUndoesRegister(k: KernelState, namespace: string, m: Manifest, kernelOwned: bool)
    requires Sound(k) && Rejection(k, namespace, m, kernelOwned).None?
    ensures Unregistered(Registered(k, namespace, m), Qualify(namespace, m.name), m) == k
  {
    hide Owned, Acyclic, ImportKeys, NewEdges, RoleKeysFor, Qualify, Committed, Scrubbed;
    var p := Qualify(namespace, m.name);
    ScrubUndoesCommit(k.rows, p, m, NewEdges(k.rows, p, m), RoleKeysFor(k.spi, namespace, m.roles));
    forall key | key in k.importOwners
      ensures key !in ImportKeys(p, m)
    {
      ImportsUnclaimed(k, namespace, m, kernelOwned, key);
    }
    ReleaseUndoesClaim(k.importOwners, ImportKeys(p, m), p);
  }

  /**
   * Loading a plugin and unloading its handle restores every index, every role and subscription order, the edges,
   * the import owners and the role users exactly; only the counter moves on. It does so exactly when the handle was
   * new, which fails only once the counter is exhausted.
   */
  lemma {:induction false} UnloadUndoesLoad(k: KernelState, namespace: string, m: Manifest)
    requires Inv(k) && Rejection(k, namespace, m, false).None?
    ensures Load(k, namespace, PluginManifest(m), false).Ok?
    ensures var (after, handle) := Load(k, namespace, PluginManifest(m), false).value;
      && Unload(after, handle).1.Ok?
      && (Unload(after, handle).0 == k.(nextId := SaturatingAdd(k.nextId, 1)) <==> FreshHandle(k))
  {
    hide Sound, Distinct, ImportKeys, Qualify, NewEdges, RoleKeysFor, Rejection, Registered, Unregistered;
    var p := Qualify(namespace, m.name);
    var registered := Registered(k, namespace, m);
    RegisterKeepsSound(k, namespace, m, false);
    RegisteredFrame(k, namespace, m);
    UnregisterUndoesRegister(k, namespace, m, false);
    var handle, keys := k.nextId, RoleKeysFor(k.spi, namespace, m.roles);
    var after := Load(k, namespace, PluginManifest(m), false).value.0;
    UnregisteredFrame(after, registered, handle, p, m);
    WithoutAfterWith(k.roleUsers, keys, handle);
    assert FreshHandle(k) ==> k.loaded[handle := Record(p, namespace, Plugin(m), false)] - {handle} == k.loaded;
  }

  lemma {:induction false} UnregisteredFrame(a: KernelState, b: KernelState, handle: nat, p: string, m: Manifest)
    requires a.rows == b.rows && a.importOwners == b.importOwners
    ensures var rest := Forgotten(a, handle);
      Unregistered(rest, p, m) ==
        rest.(rows := Unregistered(b, p, m).rows, importOwners := Unregistered(b, p, m).importOwners)
  {
  }

  lemma {:induction false} WithoutAfterWith(users: map<string, set<nat>>, keys: seq<string>, handle: nat)
    requires forall key | key in users :: users[key] != {}
    ensures WithoutUser(WithUser(users, keys, handle), handle) == users <==>
      forall key | key in users :: handle !in users[key]
  {
    if forall key | key in users :: handle !in users[key] {
      WithoutUndoesWith(users, keys, handle);
    }
  }

  /**
   * A contract comes and goes exactly when nothing was defined under its key, nobody claims the key and the handle was
   * new. The second handle of a shared contract takes it; one that plugins claimed before it was loaded cannot be
   * unloaded.
   */
  lemma {:induction false} UnloadUndoesSpiLoad(k: KernelState, namespace: string, role: string, definition: Contract)
    requires Inv(k) && Load(k, namespace, SpiDefinition(role, definition), false).Ok?
    ensures var (after, handle) := Load(k, namespace, SpiDefinition(role, definition), false).value;
      var key := Qualify(namespace, role);
      Unload(after, handle) == (k.(nextId := SaturatingAdd(k.nextId, 1)), Ok(())) <==>
      key !in k.spi && UsersOf(k.roleUsers, key) == {} && FreshHandle(k)
  {
    hide Sound, Distinct, Recorded, Qualify;
    var key := Qualify(namespace, role);
    var (after, handle) := Load(k, namespace, SpiDefinition(role, definition), false).value;
    WithoutAfterWith(k.roleUsers, [], handle);
    assert k.spi[key := definition] - {key} == k.spi <==> key !in k.spi;
    assert after.loaded - {handle} == k.loaded <==> handle !in k.loaded;
  }

  /** The operation unloads or reloads the handle, or reloads the contract under the key. */
  predicate Disturbs(k: KernelState, op: Op, handle: nat, key: string)
  {
    match op
    case DoUnload(h) => h == handle
    case DoReload(h, _) => h == handle ||
      (h in k.loaded && k.loaded[h].payload.SpiDef? && k.loaded[h].identifier == key)
    case _ => false
  }

  ghost predicate Claims(k: KernelState, handle: nat, key: string, definition: Contract)
  {
    key in k.spi && k.spi[key] == definition && handle in UsersOf(k.roleUsers, key)
  }

  lemma {:induction false} RegisterClaims(k: KernelState, namespace: string, c: Classified, kernelOwned: bool,
                                          handle: nat, key: string, definition: Contract)
    requires Claims(k, handle, key, definition) && RegisterClassified(k, namespace, c, kernelOwned).Ok?
    ensures Claims(RegisterClassified(k, namespace, c, kernelOwned).value.0, handle, key, definition)
  {
    hide Rejection, Registered, Qualify;
    if c.PluginManifest? {
      RegisteredFrame(k, namespace, c.manifest);
    }
  }

  lemma {:induction false} TrackClaims(k: KernelState, h: nat, record: Record, handle: nat, key: string,
                                       definition: Contract)
    requires Claims(k, handle, key, definition)
    ensures Claims(Tracked(k, h, record), handle, key, definition)
  {
    hide RoleKeysFor;
    if record.payload.Plugin? {
      WithUserIs(k.roleUsers, RoleKeysFor(k.spi, record.namespace, record.payload.manifest.roles), h, key);
    }
  }

  lemma {:induction false} UnloadClaims(k: KernelState, h: nat, handle: nat, key: string, definition: Contract)
    requires Claims(k, handle, key, definition) && h != handle
    ensures Claims(Unload(k, h).0, handle, key, definition)
  {
    hide Scrubbed, Released, ImportKeys;
  }

  lemma {:induction false} RemovedClaims(k: KernelState, h: nat, handle: nat, key: string, definition: Contract)
    requires Claims(k, handle, key, definition) && h != handle && h in k.loaded && Removed(k, h).Some?
    requires k.loaded[h].payload.SpiDef? ==> k.loaded[h].identifier != key
    ensures Claims(Removed(k, h).value, handle, key, definition)
  {
    hide Scrubbed, Released, ImportKeys;
  }

  lemma {:induction false} RollBackClaims(k: KernelState, record: Record, handle: nat, key: string,
                                          definition: Contract)
    requires Claims(k, handle, key, definition) && RollBack(k, record).Ok?
    ensures Claims(RollBack(k, record).value, handle, key, definition)
  {
    hide Rejection, Registered;
    if record.payload.Plugin? {
      RegisteredFrame(k, record.namespace, record.payload.manifest);
    }
  }

  lemma {:induction false} ReloadClaims(k: KernelState, h: nat, c: Classified, handle: nat, key: string,
                                        definition: Contract)
    requires Claims(k, handle, key, definition) && !Disturbs(k, DoReload(h, c), handle, key)
    ensures Claims(Reload(k, h, c).0, handle, key, definition)
  {
    hide Claims, Removed, RegisterClassified, RollBack, Tracked;
    if h in k.loaded && Removed(k, h).Some? {
      var record, removed := k.loaded[h], Removed(k, h).value;
      RemovedClaims(k, h, handle, key, definition);
      match RegisterClassified(removed, record.namespace, c, false) {
        case Ok((after, replacement)) =>
          RegisterClaims(removed, record.namespace, c, false, handle, key, definition);
          TrackClaims(after, h, replacement, handle, key, definition);
        case Err(_) =>
          if RollBack(removed, record).Ok? {
            RollBackClaims(removed, record, handle, key, definition);
            TrackClaims(RollBack(removed, record).value, h, record, handle, key, definition);
          }
      }
    }
  }

  lemma {:induction false} LoadClaims(k: KernelState, namespace: string, c: Classified, immutable: bool, handle: nat,
                                      key: string, definition: Contract)
    requires Claims(k, handle, key, definition) && Load(k, namespace, c, immutable).Ok?
    ensures Claims(Load(k, namespace, c, immutable).value.0, handle, key, definition)
  {
    hide Claims, RegisterClassified, Tracked;
    RegisterClaims(k, namespace, c, immutable, handle, key, definition);
    var (after, record) := RegisterClassified(k, namespace, c, immutable).value;
    var counted := after.(nextId := SaturatingAdd(k.nextId, 1));
    assert Claims(counted, handle, key, definition) by {
      CountClaims(after, counted, handle, key, definition);
    }
    TrackClaims(counted, k.nextId, record.(immutable := immutable), handle, key, definition);
  }

  lemma {:induction false} CountClaims(k: KernelState, after: KernelState, handle: nat, key: string,
                                       definition: Contract)
    requires Claims(k, handle, key, definition) && after.spi == k.spi && after.roleUsers == k.roleUsers
    ensures Claims(after, handle, key, definition)
  {
  }

  lemma {:induction false} UndisturbedStays(k: KernelState, op: Op, handle: nat, key: string, definition: Contract)
    requires Claims(k, handle, key, definition) && !Disturbs(k, op, handle, key)
    ensures Claims(Apply(k, op), handle, key, definition)
  {
    hide Load, Unload, Reload, Registered, Rejection;
    match op {
      case DoLoad(namespace, c, immutable) =>
        if Load(k, namespace, c, immutable).Ok? {
          LoadClaims(k, namespace, c, immutable, handle, key, definition);
        }
      case DoRegister(namespace, m) =>
        RegisteredFrame(k, namespace, m);
      case DoRegisterSpi(_, _) =>
      case DoUnload(h) =>
        UnloadClaims(k, h, handle, key, definition);
      case DoReload(h, c) =>
        ReloadClaims(k, h, c, handle, key, definition);
    }
  }

  /**
   * What a plugin claims stays: while its own handle is neither unloaded nor reloaded and the contract is not reloaded,
   * no sequence of operations takes the contract away or changes it, whichever handles stand for it.
   */
  lemma {:induction false} ClaimedContractsStay(k: KernelState, ops: seq<Op>, handle: nat, key: string)
    requires key in k.spi && handle in UsersOf(k.roleUsers, key)
    requires forall i | 0 <= i < |ops| :: !Disturbs(After(k, ops[..i]), ops[i], handle, key)
    ensures var after := After(k, ops);
      key in after.spi && after.spi[key] == k.spi[key] && handle in UsersOf(after.roleUsers, key)
  {
    hide Apply, Disturbs;
    if ops != [] {
      var n := |ops| - 1;
      forall i | 0 <= i < n
        ensures !Disturbs(After(k, ops[..n][..i]), ops[..n][i], handle, key)
      {
        assert ops[..n][..i] == ops[..i];
      }
      ClaimedContractsStay(k, ops[..n], handle, key);
      UndisturbedStays(After(k, ops[..n]), ops[n], handle, key, k.spi[key]);
    }
  }

  /** In every reachable state a loaded plugin is really registered: unloading it succeeds unless it is immutable. */
  lemma {:induction false} PluginsNeverDrift(ownChecks: OwnChecks, ops: seq<Op>, handle: nat)
    requires handle in Run(ownChecks, ops).loaded && Run(ownChecks, ops).loaded[handle].payload.Plugin?
    ensures var k := Run(ownChecks, ops);
      Unload(k, handle).1 == (if k.loaded[handle].immutable then Err(IsImmutable) else Ok(()))
  {
    EveryStateIsSound(ownChecks, ops);
    assert Recorded(Run(ownChecks, ops), handle);
  }
}

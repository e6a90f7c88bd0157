/** Who claims a role contract, and when a contract leaves the registry under a handle that stands for it. */
module Contracts {
  import opened Admission
  import opened Identity
  import opened Lifecycle
  import opened LifecycleLaws
  import opened Machine
  import opened Registry
  import opened Wrappers

  /** A plugin that declares a role which, from its namespace, can mean this contract. */
  ghost predicate Claimant(record: Record, key: string)
  {
    record.payload.Plugin? && BindsTo(record.namespace, record.payload.manifest.roles, key)
  }

  ghost predicate BindsTo(namespace: string, roles: seq<string>, key: string)
  {
    exists role, ns | role in roles && ns in AncestorNamespaces(namespace) :: key == Qualify(ns, role)
  }

  /** Until the handle counter is exhausted, the users of a role are loaded plugins that claim it. */
  ghost predicate UsersClaim(k: KernelState)
  {
    k.nextId < USIZE_MAX ==>
      forall key, h | key in k.roleUsers && h in k.roleUsers[key] :: h in k.loaded && Claimant(k.loaded[h], key)
  }

  ghost predicate Unused(k: KernelState, handle: nat)
  {
    forall key | key in k.roleUsers :: handle !in k.roleUsers[key]
  }

  // ------------------------------------------------------------ what a plugin binds to

  lemma {:induction false} NearestIsOnChain(spi: map<string, Contract>, chain: seq<string>, role: string)
    ensures NearestContract(spi, chain, role).Some? ==>
      exists ns | ns in chain :: NearestContract(spi, chain, role).value == Qualify(ns, role)
  {
    hide Qualify;
    if chain != [] && Qualify(chain[0], role) !in spi {
      NearestIsOnChain(spi, chain[1..], role);
    }
  }

  lemma {:induction false} KeysBind(spi: map<string, Contract>, namespace: string, roles: seq<string>, key: string)
    requires key in RoleKeysFor(spi, namespace, roles)
    ensures BindsTo(namespace, roles, key)
  {
    hide Qualify, NearestContract;
    var fewer, role := roles[..|roles| - 1], roles[|roles| - 1];
    if key in RoleKeysFor(spi, namespace, fewer) {
      KeysBind(spi, namespace, fewer, key);
      var r, ns :| r in fewer && ns in AncestorNamespaces(namespace) && key == Qualify(ns, r);
      assert r in roles;
    } else {
      NearestIsOnChain(spi, AncestorNamespaces(namespace), role);
      OwnIsOnChain(namespace);
      assert role in roles && key == RoleKey(spi, namespace, role);
    }
  }

  lemma {:induction false} OwnIsOnChain(namespace: string)
    ensures namespace in AncestorNamespaces(namespace)
  {
  }

  // ------------------------------------------------------------ what each transition keeps

  lemma {:induction false} TrackKeepsUsers(k: KernelState, handle: nat, record: Record)
    requires UsersClaim(k) && Unused(k, handle)
    ensures UsersClaim(Tracked(k, handle, record))
  {
    hide BindsTo, RoleKeysFor;
    var after := Tracked(k, handle, record);
    if k.nextId < USIZE_MAX && record.payload.Plugin? {
      var keys := RoleKeysFor(k.spi, record.namespace, record.payload.manifest.roles);
      forall key, h | key in after.roleUsers && h in after.roleUsers[key]
        ensures h in after.loaded && Claimant(after.loaded[h], key)
      {
        WithUserIs(k.roleUsers, keys, handle, key);
        if key in keys {
          KeysBind(k.spi, record.namespace, record.payload.manifest.roles, key);
        }
      }
    }
  }

  lemma {:induction false} RegisterKeepsUsers(k: KernelState, namespace: string, c: Classified, kernelOwned: bool)
    requires UsersClaim(k) && RegisterClassified(k, namespace, c, kernelOwned).Ok?
    ensures var after := RegisterClassified(k, namespace, c, kernelOwned).value.0;
      UsersClaim(after) && after.roleUsers == k.roleUsers && after.loaded == k.loaded && after.nextId == k.nextId
  {
    hide BindsTo, Rejection, Registered, Qualify;
    if c.PluginManifest? {
      RegisteredFrame(k, namespace, c.manifest);
    }
  }

  lemma {:induction false} LoadKeepsUsers(k: KernelState, namespace: string, c: Classified, immutable: bool)
    requires Inv(k) && UsersClaim(k) && Load(k, namespace, c, immutable).Ok?
    ensures UsersClaim(Load(k, namespace, c, immutable).value.0)
  {
    hide Sound, Recorded, Distinct, BindsTo, RegisterClassified, Tracked;
    RegisterKeepsUsers(k, namespace, c, immutable);
    var (after, record) := RegisterClassified(k, namespace, c, immutable).value;
    var counted := after.(nextId := SaturatingAdd(k.nextId, 1));
    if counted.nextId < USIZE_MAX {
      TrackKeepsUsers(counted, k.nextId, record.(immutable := immutable));
    } else {
      TrackedCount(counted, k.nextId, record.(immutable := immutable));
    }
  }

  lemma {:induction false} TrackedCount(k: KernelState, handle: nat, record: Record)
    ensures Tracked(k, handle, record).nextId == k.nextId
  {
    hide WithUser, RoleKeysFor;
  }

  /** A handle taken out of the users and then out of the loaded ones. */
  lemma {:induction false} LeaveKeepsUsers(k: KernelState, after: KernelState, handle: nat)
    requires UsersClaim(k) && after.nextId == k.nextId && after.loaded == k.loaded - {handle}
    requires after.roleUsers == WithoutUser(k.roleUsers, handle)
    ensures UsersClaim(after) && Unused(after, handle)
  {
    hide BindsTo;
  }

  lemma {:induction false} RemovedKeepsUsers(k: KernelState, handle: nat)
    requires UsersClaim(k) && handle in k.loaded && Removed(k, handle).Some?
    ensures UsersClaim(Removed(k, handle).value) && Unused(Removed(k, handle).value, handle)
  {
    hide BindsTo, Claimant, UsersClaim, Unused;
    RemovedFrame(k, handle);
    LeaveKeepsUsers(k, Removed(k, handle).value, handle);
  }

  lemma {:induction false} RemovedFrame(k: KernelState, handle: nat)
    requires handle in k.loaded && Removed(k, handle).Some?
    ensures var after := Removed(k, handle).value;
      && after.nextId == k.nextId && after.loaded == k.loaded - {handle}
      && after.roleUsers == WithoutUser(k.roleUsers, handle)
  {
    hide WithoutUser;
  }

  lemma {:induction false} UnloadKeepsUsers(k: KernelState, handle: nat)
    requires Inv(k) && UsersClaim(k)
    ensures UsersClaim(Unload(k, handle).0)
  {
    hide Sound, Distinct, UsersSound, BindsTo, Scrubbed, Released, ImportKeys, Qualify;
    if Unload(k, handle).1.Ok? {
      assert Unload(k, handle).0 == Removed(k, handle).value;
      RemovedKeepsUsers(k, handle);
    } else if handle in k.loaded {
      assert Recorded(k, handle);
    }
  }

  lemma {:induction false} RollBackFrame(k: KernelState, record: Record)
    requires RollBack(k, record).Ok?
    ensures var after := RollBack(k, record).value;
      after.roleUsers == k.roleUsers && after.loaded == k.loaded && after.nextId == k.nextId
  {
    hide Rejection, Registered;
    if record.payload.Plugin? {
      RegisteredFrame(k, record.namespace, record.payload.manifest);
    }
  }

  lemma {:induction false} ReloadKeepsUsers(k: KernelState, handle: nat, c: Classified)
    requires UsersClaim(k)
    ensures UsersClaim(Reload(k, handle, c).0)
  {
    hide BindsTo, Claimant, Removed, RegisterClassified, RollBack, Tracked;
    if handle in k.loaded && Removed(k, handle).Some? {
      var record, removed := k.loaded[handle], Removed(k, handle).value;
      RemovedKeepsUsers(k, handle);
      match RegisterClassified(removed, record.namespace, c, false) {
        case Ok((after, replacement)) =>
          RegisterKeepsUsers(removed, record.namespace, c, false);
          TrackKeepsUsers(after, handle, replacement);
        case Err(_) =>
          if RollBack(removed, record).Ok? {
            RollBackFrame(removed, record);
            TrackKeepsUsers(RollBack(removed, record).value, handle, record);
          }
      }
    }
  }

  lemma {:induction false} ApplyKeepsUsers(k: KernelState, op: Op)
    requires Inv(k) && UsersClaim(k)
    ensures UsersClaim(Apply(k, op))
  {
    hide Inv, BindsTo, Claimant, Load, Unload, Reload, Registered, Rejection;
    match op {
      case DoLoad(namespace, c, immutable) =>
        if Load(k, namespace, c, immutable).Ok? {
          LoadKeepsUsers(k, namespace, c, immutable);
        }
      case DoRegister(namespace, m) =>
        RegisteredFrame(k, namespace, m);
      case DoRegisterSpi(_, _) =>
      case DoUnload(handle) =>
        UnloadKeepsUsers(k, handle);
      case DoReload(handle, c) =>
        ReloadKeepsUsers(k, handle, c);
    }
  }

  lemma {:induction false} AfterKeepsUsers(k: KernelState, ops: seq<Op>)
    requires Inv(k) && UsersClaim(k)
    ensures UsersClaim(After(k, ops))
  {
    hide Inv, Apply, UsersClaim;
    if ops != [] {
      AfterKeeps(k, ops[..|ops| - 1]);
      AfterKeepsUsers(k, ops[..|ops| - 1]);
      ApplyKeepsUsers(After(k, ops[..|ops| - 1]), ops[|ops| - 1]);
    }
  }

  /**
   * In every reachable state whose handles are not exhausted, whoever is on record for a role is a loaded plugin that
   * claims it.
   */
  lemma {:induction false} UsersAreLoadedPlugins(ownChecks: OwnChecks, ops: seq<Op>)
    ensures UsersClaim(Run(ownChecks, ops))
  {
    hide Inv, After;
    StartKeeps(ownChecks);
    AfterKeepsUsers(Start(ownChecks), ops);
  }

  /**
   * So a contract is refused its unload for its users exactly when some loaded plugin is on record for it, and that one
   * claims it.
   */
  lemma {:induction false} RefusedForAPlugin(ownChecks: OwnChecks, ops: seq<Op>, handle: nat)
    requires var k := Run(ownChecks, ops);
      && k.nextId < USIZE_MAX && handle in k.loaded && k.loaded[handle].payload.SpiDef? && !k.loaded[handle].immutable
    ensures var k := Run(ownChecks, ops);
      var key := k.loaded[handle].identifier;
      Unload(k, handle).1 == Err(StillClaimed) <==>
      exists p | p in k.loaded :: Claimant(k.loaded[p], key) && p in UsersOf(k.roleUsers, key)
  {
    hide Claimant, Run;
    var k := Run(ownChecks, ops);
    var key := k.loaded[handle].identifier;
    UsersAreLoadedPlugins(ownChecks, ops);
    if UsersOf(k.roleUsers, key) != {} {
      var p :| p in UsersOf(k.roleUsers, key);
      assert p in k.loaded && Claimant(k.loaded[p], key);
    }
  }

  // ------------------------------------------------------------ when a contract leaves under its handle

  ghost predicate StandsFor(k: KernelState, handle: nat, key: string)
  {
    handle in k.loaded && k.loaded[handle].payload.SpiDef? && k.loaded[handle].identifier == key
  }

  /** The operation takes the contract away through a handle that stands for it. */
  ghost predicate TakesAway(k: KernelState, op: Op, key: string)
  {
    match op
    case DoUnload(h) => StandsFor(k, h, key) && !k.loaded[h].immutable && UsersOf(k.roleUsers, key) == {}
    case DoReload(h, c) =>
      StandsFor(k, h, key) && !k.loaded[h].immutable && Removed(k, h).Some? &&
      var replaced := RegisterClassified(Removed(k, h).value, k.loaded[h].namespace, c, false);
      replaced.Ok? && !(replaced.value.1.payload.SpiDef? && replaced.value.1.identifier == key)
    case _ => false
  }

  lemma {:induction false} RegisteringKeeps(k: KernelState, namespace: string, c: Classified, kernelOwned: bool,
                                            key: string)
    requires RegisterClassified(k, namespace, c, kernelOwned).Ok?
    ensures var (after, record) := RegisterClassified(k, namespace, c, kernelOwned).value;
      key in after.spi <==> key in k.spi || (record.payload.SpiDef? && record.identifier == key)
  {
    hide Rejection, Registered, Qualify;
    if c.PluginManifest? {
      RegisteredFrame(k, namespace, c.manifest);
    }
  }

  lemma {:induction false} RemovedSpi(k: KernelState, handle: nat)
    requires handle in k.loaded && Removed(k, handle).Some?
    ensures var record, after := k.loaded[handle], Removed(k, handle).value;
      forall key :: key in after.spi <==> key in k.spi && !(record.payload.SpiDef? && record.identifier == key)
  {
  }

  lemma {:induction false} TrackedSpi(k: KernelState, handle: nat, record: Record)
    ensures Tracked(k, handle, record).spi == k.spi
  {
    hide WithUser, RoleKeysFor;
  }

  lemma {:induction false} ReloadTakesAway(k: KernelState, h: nat, c: Classified, key: string)
    requires key in k.spi
    ensures key !in Reload(k, h, c).0.spi <==> TakesAway(k, DoReload(h, c), key)
  {
    hide Removed, RegisterClassified, Tracked, Registered, Rejection;
    if h in k.loaded && !k.loaded[h].immutable && Removed(k, h).Some? {
      var record, removed := k.loaded[h], Removed(k, h).value;
      RemovedSpi(k, h);
      match RegisterClassified(removed, record.namespace, c, false) {
        case Ok((after, replacement)) =>
          RegisteringKeeps(removed, record.namespace, c, false, key);
          TrackedSpi(after, h, replacement);
        case Err(_) =>
          if RollBack(removed, record).Ok? {
            TrackedSpi(RollBack(removed, record).value, h, record);
            if record.payload.Plugin? {
              RegisteredFrame(removed, record.namespace, record.payload.manifest);
            }
          }
      }
    }
  }

  /**
   * A contract leaves the registry exactly by an unclaimed unload, or a replacement, of a handle that stands for it.
   */
  lemma {:induction false} ContractLeavesExactlyWhen(k: KernelState, op: Op, key: string)
    requires key in k.spi
    ensures key !in Apply(k, op).spi <==> TakesAway(k, op, key)
  {
    hide Load, Reload, Registered, Rejection, RegisterClassified, Tracked;
    match op {
      case DoLoad(namespace, c, immutable) =>
        LoadSpi(k, namespace, c, immutable, key);
      case DoRegister(namespace, m) =>
        RegisteredFrame(k, namespace, m);
      case DoRegisterSpi(_, _) =>
      case DoUnload(handle) =>
      case DoReload(handle, c) =>
        ReloadTakesAway(k, handle, c, key);
    }
  }

  lemma {:induction false} LoadSpi(k: KernelState, namespace: string, c: Classified, immutable: bool, key: string)
    requires key in k.spi
    ensures Load(k, namespace, c, immutable).Ok? ==> key in Load(k, namespace, c, immutable).value.0.spi
  {
    hide RegisterClassified, Tracked;
    if RegisterClassified(k, namespace, c, immutable).Ok? {
      RegisteringKeeps(k, namespace, c, immutable, key);
      var (after, record) := RegisterClassified(k, namespace, c, immutable).value;
      TrackedSpi(after.(nextId := SaturatingAdd(k.nextId, 1)), k.nextId, record.(immutable := immutable));
    }
  }

  /**
   * A handle that stands for a contract in the registry comes to drift from it, so that its unload reports the index
   * out of step, exactly when another handle for the same contract is unloaded or replaced; short of the two refusals
   * that come first.
   */
  lemma {:induction false} DriftsExactlyWhen(k: KernelState, op: Op, handle: nat, key: string)
    requires key in k.spi && StandsFor(Apply(k, op), handle, key)
    ensures var after := Apply(k, op);
      Unload(after, handle).1 == Err(Drift) <==>
      !after.loaded[handle].immutable && UsersOf(after.roleUsers, key) == {} && TakesAway(k, op, key)
    ensures TakesAway(k, op, key) ==> (op.DoUnload? || op.DoReload?) && op.handle != handle
  {
    hide Apply;
    ContractLeavesExactlyWhen(k, op, key);
    if TakesAway(k, op, key) && op.handle == handle {
      TakenIsNotStanding(k, op, key);
    }
  }

  lemma {:induction false} TakenIsNotStanding(k: KernelState, op: Op, key: string)
    requires TakesAway(k, op, key)
    ensures !StandsFor(Apply(k, op), op.handle, key)
  {
    hide Scrubbed, Released, ImportKeys, WithoutUser, WithUser, RoleKeysFor, Removed, RegisterClassified;
  }
}

/** Loading, unloading and reloading manifests: the kernel's state machine around the plugin registry. */
module Lifecycle {
  import opened Admission
  import opened Identity
  import opened InvokeGraph
  import opened Machine
  import opened Registry
  import opened Wrappers

  datatype Payload = SpiDef(definition: Contract) | Plugin(manifest: Manifest)

  /** What is kept of a loaded manifest: the manifest as the author wrote it, under its qualified name. */
  datatype Record = Record(identifier: string, namespace: string, payload: Payload, immutable: bool)

  /** What a manifest text turns out to be. */
  datatype Classified =
    | Unrecognised
    | SpiDefinition(role: string, definition: Contract)
    | PluginManifest(manifest: Manifest)

  datatype LoadError =
    | NotRecognised
    | BadNamespace(reason: NameError)
    | BadName(reason: NameError)
    | AlreadyRegistered(plugin: string)
    | ChecksFailed
    | MissingAction
    | AliasRejected
    | ImportRejected
    | NoScriptRuntime
    | UnknownReference
    | InvokeCycle
    | DefRejected
    | ImplRejected
    | SpiConflict(key: string)
    | IsImmutable
    | NotLoaded
    | StillClaimed
    | Drift
    | RollbackFailed

  /**
   * The checks that read nothing but a manifest, the namespace it goes into, whether it is the kernel's own, and the
   * configuration the kernel was built with: schema, names, permissions, step shapes, plans, wasm, trusted providers.
   */
  type OwnChecks = (string, Manifest, bool) -> bool

  /**
   * `ownChecks` never changes. `spi` are the role contracts by qualified key; `roleUsers` the handles that claim each.
   */
  datatype KernelState = KernelState(
    ownChecks: OwnChecks,
    rows: Rows,
    spi: map<string, Contract>,
    loaded: map<nat, Record>,
    roleUsers: map<string, set<nat>>,
    importOwners: map<string, string>,
    nextId: nat)

  // ------------------------------------------------------------ import claims

  function Claimed(owners: map<string, string>, keys: seq<string>, p: string): map<string, string>
  {
    if keys == [] then owners else Claimed(owners, keys[..|keys| - 1], p)[keys[|keys| - 1] := p]
  }

  function Released(owners: map<string, string>, keys: seq<string>, p: string): map<string, string>
  {
    if keys == [] then owners
    else
      var rest, key := Released(owners, keys[..|keys| - 1], p), keys[|keys| - 1];
      if key in rest && rest[key] == p then rest - {key} else rest
  }

  lemma {:induction false} ClaimedIs(owners: map<string, string>, keys: seq<string>, p: string, key: string)
    ensures key in Claimed(owners, keys, p) <==> key in owners || key in keys
    ensures key in keys ==> Claimed(owners, keys, p)[key] == p
    ensures key in owners && key !in keys ==> Claimed(owners, keys, p)[key] == owners[key]
  {
    if keys != [] {
      ClaimedIs(owners, keys[..|keys| - 1], p, key);
      assert keys == keys[..|keys| - 1] + [keys[|keys| - 1]];
    }
  }

  lemma {:induction false} ReleasedIs(owners: map<string, string>, keys: seq<string>, p: string, key: string)
    ensures key in Released(owners, keys, p) <==> key in owners && !(key in keys && owners[key] == p)
    ensures key in Released(owners, keys, p) ==> Released(owners, keys, p)[key] == owners[key]
  {
    if keys != [] {
      ReleasedIs(owners, keys[..|keys| - 1], p, key);
      ReleasedIs(owners, keys[..|keys| - 1], p, keys[|keys| - 1]);
      assert keys == keys[..|keys| - 1] + [keys[|keys| - 1]];
    }
  }

  lemma {:induction false} ReleaseUndoesClaim(owners: map<string, string>, keys: seq<string>, p: string)
    requires forall key | key in owners :: key !in keys
    ensures Released(Claimed(owners, keys, p), keys, p) == owners
  {
    forall key
      ensures key in Released(Claimed(owners, keys, p), keys, p) <==> key in owners
      ensures key in owners ==> Released(Claimed(owners, keys, p), keys, p)[key] == owners[key]
    {
      ClaimedIs(owners, keys, p, key);
      ReleasedIs(Claimed(owners, keys, p), keys, p, key);
    }
  }

  // ------------------------------------------------------------ the checks

  /** Why a plugin is refused, if it is. */
  ghost function Rejection(k: KernelState, namespace: string, m: Manifest, kernelOwned: bool): Option<LoadError>
  {
    if ValidateNamespace(namespace).Err? then Some(BadNamespace(ValidateNamespace(namespace).error))
    else if ValidateName(PluginName, m.name).Err? then Some(BadName(ValidateName(PluginName, m.name).error))
    else
      var p := Qualify(namespace, m.name);
      if p in k.rows.manifests then Some(AlreadyRegistered(p))
      else if !k.ownChecks(namespace, m, kernelOwned) then Some(ChecksFailed)
      else if !MeetsContracts(k.spi, namespace, m) then Some(MissingAction)
      else if !AliasesSound(k.rows.aliases, p, m) then Some(AliasRejected)
      else if !ImportsFree(k.importOwners, p, ImportKeys(p, m)) then Some(ImportRejected)
      else if !ScriptsRun(k.rows.stepTypeImpls, m) then Some(NoScriptRuntime)
      else if !ReferencesKnown(k.rows, p, m) then Some(UnknownReference)
      else if !Acyclic(k.rows.invokeEdges + NewEdges(k.rows, p, m)) then Some(InvokeCycle)
      else if !DefsFree(k.rows.stepTypeDefs, p, m) then Some(DefRejected)
      else if !ImplsDefined(k.rows.stepTypeDefs, p, m) || !ImplsFree(k.rows.stepTypeImpls, p, m) then Some(ImplRejected)
      else None
  }

  // ------------------------------------------------------------ the transitions

  /** A plugin that passed its checks, committed. */
  function Registered(k: KernelState, namespace: string, m: Manifest): KernelState
  {
    var p := Qualify(namespace, m.name);
    k.(rows := Committed(k.rows, p, m, NewEdges(k.rows, p, m), RoleKeysFor(k.spi, namespace, m.roles)),
       importOwners := Claimed(k.importOwners, ImportKeys(p, m), p))
  }

  ghost function RegisterPlugin(k: KernelState, namespace: string, m: Manifest, kernelOwned: bool)
    : Result<KernelState, LoadError>
  {
    match Rejection(k, namespace, m, kernelOwned)
    case Some(e) => Err(e)
    case None => Ok(Registered(k, namespace, m))
  }

  /** The same definition again is accepted and changes nothing; a different one is refused. */
  function RegisterSpi(k: KernelState, key: string, definition: Contract): Result<KernelState, LoadError>
  {
    if key !in k.spi then Ok(k.(spi := k.spi[key := definition]))
    else if k.spi[key] == definition then Ok(k)
    else Err(SpiConflict(key))
  }

  ghost function RegisterClassified(k: KernelState, namespace: string, c: Classified, kernelOwned: bool)
    : Result<(KernelState, Record), LoadError>
  {
    match c
    case Unrecognised => Err(NotRecognised)
    case SpiDefinition(role, definition) =>
      if ValidateNamespace(namespace).Err? then Err(BadNamespace(ValidateNamespace(namespace).error))
      else
        var key := Qualify(namespace, role);
        (match RegisterSpi(k, key, definition)
         case Err(e) => Err(e)
         case Ok(after) => Ok((after, Record(key, namespace, SpiDef(definition), false))))
    case PluginManifest(m) =>
      match RegisterPlugin(k, namespace, m, kernelOwned)
      case Err(e) => Err(e)
      case Ok(after) => Ok((after, Record(Qualify(namespace, m.name), namespace, Plugin(m), false)))
  }

  function UsersOf(users: map<string, set<nat>>, key: string): set<nat>
  {
    if key in users then users[key] else {}
  }

  function WithUser(users: map<string, set<nat>>, keys: seq<string>, handle: nat): map<string, set<nat>>
  {
    if keys == [] then users
    else
      var before, key := WithUser(users, keys[..|keys| - 1], handle), keys[|keys| - 1];
      before[key := UsersOf(before, key) + {handle}]
  }

  function WithoutUser(users: map<string, set<nat>>, handle: nat): map<string, set<nat>>
  {
    map key | key in users && users[key] - {handle} != {} :: users[key] - {handle}
  }

  function Tracked(k: KernelState, handle: nat, record: Record): KernelState
  {
    var users :=
      if record.payload.Plugin?
      then WithUser(k.roleUsers, RoleKeysFor(k.spi, record.namespace, record.payload.manifest.roles), handle)
      else k.roleUsers;
    k.(loaded := k.loaded[handle := record], roleUsers := users)
  }

  function Untracked(k: KernelState, handle: nat): KernelState
  {
    k.(roleUsers := WithoutUser(k.roleUsers, handle))
  }

  function Forgotten(k: KernelState, handle: nat): KernelState
  {
    k.(loaded := k.loaded - {handle})
  }

  ghost function Load(k: KernelState, namespace: string, c: Classified, immutable: bool)
    : Result<(KernelState, nat), LoadError>
  {
    match RegisterClassified(k, namespace, c, immutable)
    case Err(e) => Err(e)
    case Ok((after, record)) =>
      var handle := k.nextId;
      Ok((Tracked(after.(nextId := SaturatingAdd(k.nextId, 1)), handle, record.(immutable := immutable)), handle))
  }

  /** The registered plugin's rows scrubbed and its linker imports released. */
  function Unregistered(k: KernelState, p: string, m: Manifest): KernelState
  {
    k.(rows := Scrubbed(k.rows, p), importOwners := Released(k.importOwners, ImportKeys(p, m), p))
  }

  function Unload(k: KernelState, handle: nat): (KernelState, Result<(), LoadError>)
  {
    if handle in k.loaded && k.loaded[handle].immutable then (k, Err(IsImmutable))
    else if handle !in k.loaded then (k, Err(NotLoaded))
    else
      var record, rest := k.loaded[handle], Forgotten(k, handle);
      match record.payload
      case SpiDef(_) =>
        if UsersOf(k.roleUsers, record.identifier) != {} then (k, Err(StillClaimed))
        else if record.identifier !in k.spi then (rest, Err(Drift))
        else (Untracked(rest.(spi := rest.spi - {record.identifier}), handle), Ok(()))
      case Plugin(m) =>
        if record.identifier !in k.rows.manifests then (rest, Err(Drift))
        else (Untracked(Unregistered(rest, record.identifier, m), handle), Ok(()))
  }

  /** The old registration gone from every index, before the replacement is tried; none when the indices disagree. */
  function Removed(k: KernelState, handle: nat): Option<KernelState>
    requires handle in k.loaded
  {
    var record, rest := k.loaded[handle], Forgotten(k, handle);
    match record.payload
    case SpiDef(_) =>
      if record.identifier !in k.spi then None
      else Some(Untracked(rest.(spi := rest.spi - {record.identifier}), handle))
    case Plugin(m) =>
      if record.identifier !in k.rows.manifests then None
      else Some(Untracked(Unregistered(rest, record.identifier, m), handle))
  }

  /** The retained manifest registered again. */
  ghost function RollBack(k: KernelState, record: Record): Result<KernelState, LoadError>
  {
    match record.payload
    case SpiDef(definition) => RegisterSpi(k, record.identifier, definition)
    case Plugin(m) => RegisterPlugin(k, record.namespace, m, false)
  }

  ghost function Reload(k: KernelState, handle: nat, c: Classified)
    : (KernelState, Result<(), LoadError>)
  {
    if handle in k.loaded && k.loaded[handle].immutable then (k, Err(IsImmutable))
    else if handle !in k.loaded then (k, Err(NotLoaded))
    else
      var record := k.loaded[handle];
      match Removed(k, handle)
      case None => (k, Err(Drift))
      case Some(removed) =>
        match RegisterClassified(removed, record.namespace, c, false)
        case Ok((after, replacement)) => (Tracked(after, handle, replacement), Ok(()))
        case Err(e) =>
          match RollBack(removed, record)
          case Ok(restored) => (Tracked(restored, handle, record), Err(e))
          case Err(_) => (removed, Err(RollbackFailed))
  }
}

/** The kernel's manifest lifecycle, step by step. */
module Kernel {
  import opened Admission
  import opened Identity
  import opened InvokeGraph
  import opened Lifecycle
  import opened LifecycleLaws
  import opened Machine
  import opened Registry
  import opened Wrappers

  class Kernel {
    const ownChecks: OwnChecks
    const registry: PluginRegistry
    var spiRegistry: map<string, Contract>
    var loadedManifests: map<nat, Record>
    var spiRoleUsers: map<string, set<nat>>
    var stepImportOwners: map<string, string>
    var nextManifestId: nat

    function View(): KernelState
      reads this, registry
    {
      KernelState(ownChecks, registry.View(), spiRegistry, loadedManifests, spiRoleUsers, stepImportOwners,
        nextManifestId)
    }

    constructor (ownChecks: OwnChecks)
      ensures View() == Start(ownChecks) && fresh(registry)
    {
      this.ownChecks := ownChecks;
      registry := new PluginRegistry();
      spiRegistry, loadedManifests, spiRoleUsers, stepImportOwners := map[], map[], map[], map[];
      nextManifestId := 1;
    }

    method RoleKeys(namespace: string, roles: seq<string>) returns (keys: seq<string>)
      ensures keys == RoleKeysFor(spiRegistry, namespace, roles)
    {
      keys := [];
      for k := 0 to |roles|
        invariant keys == RoleKeysFor(spiRegistry, namespace, roles[..k])
      {
        assert roles[..k + 1][..k] == roles[..k];
        var key := RoleKey(spiRegistry, namespace, roles[k]);
        if key !in keys {
          keys := keys + [key];
        }
      }
      assert roles[..|roles|] == roles;
    }

    method CollectFromSteps(p: string, m: Manifest, action: string, steps: seq<Step>, out: seq<InvokeEdge>)
      returns (out': seq<InvokeEdge>)
      ensures out' == out + StepEdges(registry.stepTypeAliases, p, m, action, steps)
      decreases steps
    {
      ghost var aliases := registry.stepTypeAliases;
      out' := out;
      for k := 0 to |steps|
        invariant out' + StepEdges(aliases, p, m, action, steps[k..]) == out + StepEdges(aliases, p, m, action, steps)
      {
        var step := steps[k];
        ghost var before, rest := out', StepEdges(aliases, p, m, action, steps[k + 1..]);
        assert steps[k..][0] == step && steps[k..][1..] == steps[k + 1..];
        if step.stepType == "invoke" {
          if "plugin" in step.texts && "action" in step.texts {
            out' := out' + [InvokeEdge(NodeRef(p, action), NodeRef(step.texts["plugin"], step.texts["action"]))];
          }
        } else if HasBodies(step) {
          out' := WalkInnerArrays(p, m, action, step.bodies, out');
        } else {
          var target := ResolveAlias(registry.stepTypeAliases, p, m, step.stepType);
          if target.Some? {
            out' := out' + [InvokeEdge(NodeRef(p, action), target.value)];
          }
        }
        assert out' == before + EdgesOfStep(aliases, p, m, action, step);
        Reassociate(before, EdgesOfStep(aliases, p, m, action, step), rest);
      }
      assert steps[0..] == steps;
    }

    method WalkInnerArrays(p: string, m: Manifest, action: string, bodies: seq<Body>, out: seq<InvokeEdge>)
      returns (out': seq<InvokeEdge>)
      ensures out' == out + BodyEdges(registry.stepTypeAliases, p, m, action, bodies)
      decreases bodies
    {
      ghost var aliases := registry.stepTypeAliases;
      out' := out;
      for k := 0 to |bodies|
        invariant out' + BodyEdges(aliases, p, m, action, bodies[k..]) == out + BodyEdges(aliases, p, m, action, bodies)
      {
        assert bodies[k..][0] == bodies[k] && bodies[k..][1..] == bodies[k + 1..];
        ghost var before, rest := out', BodyEdges(aliases, p, m, action, bodies[k + 1..]);
        out' := CollectFromSteps(p, m, action, bodies[k].steps, out');
        Reassociate(before, StepEdges(aliases, p, m, action, bodies[k].steps), rest);
      }
      assert bodies[0..] == bodies;
    }

    /** All targets as written and all aliases as they resolve now, in walk order. */
    method CollectEdges(p: string, m: Manifest) returns (edges: seq<InvokeEdge>)
      ensures edges == ActionEdges(registry.stepTypeAliases, p, m, m.actions)
    {
      hide StepEdges;
      ghost var aliases := registry.stepTypeAliases;
      edges := [];
      for k := 0 to |m.actions|
        invariant edges + ActionEdges(aliases, p, m, m.actions[k..]) == ActionEdges(aliases, p, m, m.actions)
      {
        var action := m.actions[k];
        assert m.actions[k..][0] == action && m.actions[k..][1..] == m.actions[k + 1..];
        ghost var before, rest := edges, ActionEdges(aliases, p, m, m.actions[k + 1..]);
        edges := CollectFromSteps(p, m, action.name, action.steps, edges);
        Reassociate(before, StepEdges(aliases, p, m, action.name, action.steps), rest);
      }
      assert m.actions[0..] == m.actions;
    }

    /** The targets one step declares through its type's definition; the first unknown one ends the walk. */
    method StepReferences(p: string, m: Manifest, step: Step, references: seq<(string, string)>)
      returns (known: bool, targets: seq<NodeRef>)
      ensures known <==> AllKnown(registry.View(), p, m, TargetsOf(step, references))
      ensures known ==> targets == TargetsOf(step, references)
    {
      hide Known, ReferenceTarget, TargetsOf;
      targets := [];
      for k := 0 to |references|
        invariant targets + TargetsOf(step, references[k..]) == TargetsOf(step, references)
        invariant AllKnown(registry.View(), p, m, targets)
      {
        NextReference(step, references, k);
        var target := ReferenceTarget(step, references[k]);
        if target.Some? {
          assert target.value in TargetsOf(step, references);
          if !Known(registry.View(), p, m, target.value) {
            return false, targets;
          }
          targets := targets + [target.value];
        }
      }
      NoReferences(step, references);
      return true, targets;
    }

    method ActionReferences(p: string, m: Manifest, action: ActionDef) returns (known: bool, edges: seq<InvokeEdge>)
      ensures known <==> AllKnown(registry.View(), p, m, StepTargets(registry.stepTypeDefs, m, action.steps))
      ensures known ==> edges == EdgesTo(p, action.name, StepTargets(registry.stepTypeDefs, m, action.steps))
    {
      hide TargetsOf, Known, StepTargets, DefOf, EdgesTo;
      ghost var defs := registry.stepTypeDefs;
      var targets := [];
      for k := 0 to |action.steps|
        invariant targets + StepTargets(defs, m, action.steps[k..]) == StepTargets(defs, m, action.steps)
        invariant AllKnown(registry.View(), p, m, targets)
      {
        NextStep(defs, m, action.steps, k);
        var def := DefOf(registry.stepTypeDefs, m, action.steps[k].stepType);
        if def.Some? {
          ghost var rest := StepTargets(defs, m, action.steps[k + 1..]);
          var ok, more := StepReferences(p, m, action.steps[k], def.value.references);
          if !ok {
            assert forall t | t in TargetsOf(action.steps[k], def.value.references) ::
              t in StepTargets(defs, m, action.steps);
            return false, [];
          }
          Reassociate(targets, more, rest);
          targets := targets + more;
        }
      }
      NoSteps(defs, m, action.steps);
      assert targets == StepTargets(defs, m, action.steps);
      return true, EdgesTo(p, action.name, targets);
    }

    method CollectDeclaredReferences(p: string, m: Manifest) returns (known: bool, edges: seq<InvokeEdge>)
      ensures known <==> ReferencesKnown(registry.View(), p, m)
      ensures known ==> edges == DeclaredEdges(registry.stepTypeDefs, p, m, m.actions)
    {
      hide StepTargets, Known;
      ghost var defs := registry.stepTypeDefs;
      edges := [];
      for k := 0 to |m.actions|
        invariant edges + DeclaredEdges(defs, p, m, m.actions[k..]) == DeclaredEdges(defs, p, m, m.actions)
        invariant forall i | 0 <= i < k :: AllKnown(registry.View(), p, m, StepTargets(defs, m, m.actions[i].steps))
      {
        assert m.actions[k..][0] == m.actions[k] && m.actions[k..][1..] == m.actions[k + 1..];
        ghost var rest := DeclaredEdges(defs, p, m, m.actions[k + 1..]);
        var ok, more := ActionReferences(p, m, m.actions[k]);
        if !ok {
          return false, [];
        }
        Reassociate(edges, more, rest);
        edges := edges + more;
      }
      assert m.actions[0..] == m.actions;
      return true, edges;
    }

    method ClaimStepImports(p: string, keys: seq<string>)
      modifies this`stepImportOwners
      ensures stepImportOwners == Claimed(old(stepImportOwners), keys, p)
    {
      for k := 0 to |keys|
        invariant stepImportOwners == Claimed(old(stepImportOwners), keys[..k], p)
      {
        assert keys[..k + 1][..k] == keys[..k];
        stepImportOwners := stepImportOwners[keys[k] := p];
      }
      assert keys[..|keys|] == keys;
    }

    /** Only imports this plugin owns are released. */
    method ReleaseStepImports(p: string, m: Manifest)
      modifies this`stepImportOwners
      ensures stepImportOwners == Released(old(stepImportOwners), ImportKeys(p, m), p)
    {
      var keys := ImportKeys(p, m);
      for k := 0 to |keys|
        invariant stepImportOwners == Released(old(stepImportOwners), keys[..k], p)
      {
        assert keys[..k + 1][..k] == keys[..k];
        if keys[k] in stepImportOwners && stepImportOwners[keys[k]] == p {
          stepImportOwners := stepImportOwners - {keys[k]};
        }
      }
      assert keys[..|keys|] == keys;
    }

    /** Every check comes before the first change, so a refusal changes nothing. */
    method RegisterPluginIn(namespace: string, m: Manifest, kernelOwned: bool) returns (r: Result<(), LoadError>)
      modifies this`stepImportOwners, registry
      ensures r.Ok? <==> Rejection(old(View()), namespace, m, kernelOwned).None?
      ensures r.Err? ==> View() == old(View()) && Rejection(old(View()), namespace, m, kernelOwned) == Some(r.error)
      ensures r.Ok? ==> View() == Registered(old(View()), namespace, m)
    {
      hide MeetsContracts, AliasesSound, ImportsFree, ScriptsRun, ReferencesKnown, ActionEdges, DeclaredEdges, DefsFree,
        ImplsDefined, ImplsFree, RoleKeysFor, ImportKeys, Claimed, Acyclic, ValidateNamespace, ValidateName, Qualify;
      if ValidateNamespace(namespace).Err? {
        return Err(BadNamespace(ValidateNamespace(namespace).error));
      }
      if ValidateName(PluginName, m.name).Err? {
        return Err(BadName(ValidateName(PluginName, m.name).error));
      }
      var p := Qualify(namespace, m.name);
      if p in registry.manifests {
        return Err(AlreadyRegistered(p));
      }
      if !ownChecks(namespace, m, kernelOwned) {
        return Err(ChecksFailed);
      }
      if !MeetsContracts(spiRegistry, namespace, m) {
        return Err(MissingAction);
      }
      if !AliasesSound(registry.stepTypeAliases, p, m) {
        return Err(AliasRejected);
      }
      if !ImportsFree(stepImportOwners, p, ImportKeys(p, m)) {
        return Err(ImportRejected);
      }
      if !ScriptsRun(registry.stepTypeImpls, m) {
        return Err(NoScriptRuntime);
      }
      var edges := CollectEdges(p, m);
      var known, declared := CollectDeclaredReferences(p, m);
      if !known {
        return Err(UnknownReference);
      }
      edges := edges + declared;
      var acyclic := CheckAcyclic(registry.invokeEdges, edges);
      if acyclic.Err? {
        return Err(InvokeCycle);
      }
      if !DefsFree(registry.stepTypeDefs, p, m) {
        return Err(DefRejected);
      }
      if !ImplsDefined(registry.stepTypeDefs, p, m) || !ImplsFree(registry.stepTypeImpls, p, m) {
        return Err(ImplRejected);
      }
      var roleKeys := RoleKeys(namespace, m.roles);
      registry.CommitManifest(p, m, edges, roleKeys);
      ClaimStepImports(p, ImportKeys(p, m));
      return Ok(());
    }

    method RegisterSpiDefinition(key: string, definition: Contract) returns (r: Result<(), LoadError>)
      modifies this`spiRegistry
      ensures match RegisterSpi(old(View()), key, definition)
              case Ok(after) => r.Ok? && View() == after
              case Err(e) => r == Err(e) && View() == old(View())
    {
      if key in spiRegistry {
        return if spiRegistry[key] == definition then Ok(()) else Err(SpiConflict(key));
      }
      spiRegistry := spiRegistry[key := definition];
      return Ok(());
    }

    method RegisterClassifiedManifest(namespace: string, c: Classified, kernelOwned: bool)
      returns (r: Result<Record, LoadError>)
      modifies this`stepImportOwners, this`spiRegistry, registry
      ensures match RegisterClassified(old(View()), namespace, c, kernelOwned)
              case Ok((after, record)) => r == Ok(record) && View() == after
              case Err(e) => r == Err(e) && View() == old(View())
    {
      hide Rejection, Registered, ValidateNamespace, Qualify;
      match c {
        case Unrecognised =>
          return Err(NotRecognised);
        case SpiDefinition(role, definition) =>
          if ValidateNamespace(namespace).Err? {
            return Err(BadNamespace(ValidateNamespace(namespace).error));
          }
          var key := Qualify(namespace, role);
          var ok :- RegisterSpiDefinition(key, definition);
          return Ok(Record(key, namespace, SpiDef(definition), false));
        case PluginManifest(m) =>
          var ok :- RegisterPluginIn(namespace, m, kernelOwned);
          return Ok(Record(Qualify(namespace, m.name), namespace, Plugin(m), false));
      }
    }

    method AddRoleUser(keys: seq<string>, handle: nat)
      modifies this`spiRoleUsers
      ensures spiRoleUsers == WithUser(old(spiRoleUsers), keys, handle)
    {
      for k := 0 to |keys|
        invariant spiRoleUsers == WithUser(old(spiRoleUsers), keys[..k], handle)
      {
        assert keys[..k + 1][..k] == keys[..k];
        spiRoleUsers := spiRoleUsers[keys[k] := UsersOf(spiRoleUsers, keys[k]) + {handle}];
      }
      assert keys[..|keys|] == keys;
    }

    method TrackManifest(handle: nat, record: Record)
      modifies this`loadedManifests, this`spiRoleUsers
      ensures View() == Tracked(old(View()), handle, record)
    {
      hide WithUser, RoleKeysFor;
      if record.payload.Plugin? {
        var keys := RoleKeys(record.namespace, record.payload.manifest.roles);
        AddRoleUser(keys, handle);
      }
      loadedManifests := loadedManifests[handle := record];
    }

    /** The handle out of every bucket, then the buckets that leaves empty. */
    method UntrackManifest(handle: nat)
      modifies this`spiRoleUsers
      ensures View() == Untracked(old(View()), handle)
    {
      spiRoleUsers := map key | key in spiRoleUsers :: spiRoleUsers[key] - {handle};
      spiRoleUsers := map key | key in spiRoleUsers && spiRoleUsers[key] != {} :: spiRoleUsers[key];
    }

    method LoadManifest(namespace: string, c: Classified, immutable: bool) returns (r: Result<nat, LoadError>)
      modifies this, registry
      ensures match Load(old(View()), namespace, c, immutable)
              case Ok((after, handle)) => r == Ok(handle) && View() == after
              case Err(e) => r == Err(e) && View() == old(View())
    {
      hide RegisterClassified, Tracked;
      var record :- RegisterClassifiedManifest(namespace, c, immutable);
      record := record.(immutable := immutable);
      var handle := nextManifestId;
      nextManifestId := SaturatingAdd(nextManifestId, 1);
      TrackManifest(handle, record);
      return Ok(handle);
    }

    method UnloadManifest(handle: nat) returns (r: Result<(), LoadError>)
      modifies this, registry
      ensures (View(), r) == Unload(old(View()), handle)
    {
      hide Scrubbed, Released, ImportKeys, WithoutUser;
      if handle in loadedManifests && loadedManifests[handle].immutable {
        return Err(IsImmutable);
      }
      if handle !in loadedManifests {
        return Err(NotLoaded);
      }
      var record := loadedManifests[handle];
      match record.payload {
        case SpiDef(_) =>
          if UsersOf(spiRoleUsers, record.identifier) != {} {
            return Err(StillClaimed);
          }
          loadedManifests := loadedManifests - {handle};
          if record.identifier !in spiRegistry {
            return Err(Drift);
          }
          spiRegistry := spiRegistry - {record.identifier};
        case Plugin(m) =>
          loadedManifests := loadedManifests - {handle};
          var removed := registry.UnregisterPlugin(record.identifier);
          if !removed {
            return Err(Drift);
          }
          ReleaseStepImports(record.identifier, m);
      }
      UntrackManifest(handle);
      return Ok(());
    }

    method RollBackTo(record: Record) returns (r: Result<(), LoadError>)
      modifies this`stepImportOwners, this`spiRegistry, registry
      ensures match RollBack(old(View()), record)
              case Ok(after) => r.Ok? && View() == after
              case Err(e) => r == Err(e) && View() == old(View())
    {
      hide Rejection, Registered;
      match record.payload {
        case SpiDef(definition) =>
          r := RegisterSpiDefinition(record.identifier, definition);
        case Plugin(m) =>
          r := RegisterPluginIn(record.namespace, m, false);
      }
    }

    /** The old registration taken out of every index, or nothing changed when the indices disagree. */
    method RemoveManifest(handle: nat) returns (removed: bool)
      requires handle in loadedManifests
      modifies this, registry
      ensures match Removed(old(View()), handle)
              case Some(after) => removed && View() == after
              case None => !removed && View() == old(View())
    {
      hide Scrubbed, Released, ImportKeys, WithoutUser;
      var record := loadedManifests[handle];
      match record.payload {
        case SpiDef(_) =>
          if record.identifier !in spiRegistry {
            return false;
          }
          spiRegistry := spiRegistry - {record.identifier};
        case Plugin(m) =>
          removed := registry.UnregisterPlugin(record.identifier);
          if !removed {
            return;
          }
          ReleaseStepImports(record.identifier, m);
      }
      loadedManifests := loadedManifests - {handle};
      UntrackManifest(handle);
      return true;
    }

    method ReloadManifest(handle: nat, c: Classified) returns (r: Result<(), LoadError>)
      modifies this, registry
      ensures (View(), r) == Reload(old(View()), handle, c)
    {
      hide Removed, RegisterClassified, RollBack, Tracked;
      if handle in loadedManifests && loadedManifests[handle].immutable {
        return Err(IsImmutable);
      }
      if handle !in loadedManifests {
        return Err(NotLoaded);
      }
      var oldRecord := loadedManifests[handle];
      var removed := RemoveManifest(handle);
      if !removed {
        return Err(Drift);
      }
      var registered := RegisterClassifiedManifest(oldRecord.namespace, c, false);
      if registered.Ok? {
        TrackManifest(handle, registered.value);
        return Ok(());
      }
      var rollback := RollBackTo(oldRecord);
      if rollback.Err? {
        return Err(RollbackFailed);
      }
      TrackManifest(handle, oldRecord);
      return Err(registered.error);
    }
  }
  predicate AllKnown(rows: Rows, p: string, m: Manifest, targets: seq<NodeRef>)
  {
    forall t | t in targets :: Known(rows, p, m, t)
  }

  lemma {:induction false} NextReference(step: Step, references: seq<(string, string)>, k: nat)
    requires k < |references|
    ensures TargetsOf(step, references[k..]) ==
      (match ReferenceTarget(step, references[k]) case None => [] case Some(t) => [t])
        + TargetsOf(step, references[k + 1..])
    ensures references[0..] == references
  {
    hide ReferenceTarget;
    assert references[k..][0] == references[k] && references[k..][1..] == references[k + 1..];
  }

  lemma {:induction false} NoReferences(step: Step, references: seq<(string, string)>)
    ensures TargetsOf(step, references[|references|..]) == []
  {
  }

  lemma {:induction false} NextStep(defs: map<string, (string, StepTypeDef)>, m: Manifest, steps: seq<Step>, k: nat)
    requires k < |steps|
    ensures StepTargets(defs, m, steps[k..]) ==
      (match DefOf(defs, m, steps[k].stepType) case None => [] case Some(def) => TargetsOf(steps[k], def.references))
        + StepTargets(defs, m, steps[k + 1..])
    ensures steps[0..] == steps
  {
    hide DefOf, TargetsOf;
    assert steps[k..][0] == steps[k] && steps[k..][1..] == steps[k + 1..];
  }

  lemma {:induction false} NoSteps(defs: map<string, (string, StepTypeDef)>, m: Manifest, steps: seq<Step>)
    ensures StepTargets(defs, m, steps[|steps|..]) == []
  {
  }

  lemma {:induction false} Reassociate<T>(a: seq<T>, b: seq<T>, c: seq<T>)
    ensures a + b + c == a + (b + c)
  {
  }
}

/** Which plugin a reference means, who may dispatch to whom, and where chains of dispatches can lead. */
module Dispatch {
  import opened Identity
  import opened Wrappers

  datatype NamePattern = Any | Exact(name: string)

  datatype Permission =
    | InvokePlugin(plugin: NamePattern)
    | InvokeRole(role: NamePattern)
    | OtherPermission(text: string)

  /** The registered plugins by qualified identity, and what each one's manifest was granted. */
  datatype World = World(plugins: set<string>, grants: map<string, seq<Permission>>)

  datatype Request = ByPlugin(plugin: string) | ByRole(role: string)

  datatype Denial = TooDeep | OffChain | NoGrant

  function PermissionsFor(w: World, plugin: string): seq<Permission>
  {
    if plugin in w.grants then w.grants[plugin] else []
  }

  // ------------------------------------------------------------ references

  function QualifyEach(namespaces: seq<string>, name: string): (ids: seq<string>)
    ensures |ids| == |namespaces| && forall i | 0 <= i < |ids| :: ids[i] == Qualify(namespaces[i], name)
  {
    seq(|namespaces|, i requires 0 <= i < |namespaces| => Qualify(namespaces[i], name))
  }

  /** What the reference could mean, nearest namespace first. */
  function Candidates(caller: string, reference: string): (r: Result<seq<string>, NameError>)
    ensures r.Ok? ==> r.value != []
  {
    match ValidateName(PluginName, reference)
    case Err(e) => Err(e)
    case Ok(_) => Ok(QualifyEach(AncestorNamespaces(NamespaceOf(caller)), reference))
  }

  function FirstRegistered(plugins: set<string>, candidates: seq<string>): Option<string>
  {
    if candidates == [] then None
    else if candidates[0] in plugins then Some(candidates[0])
    else FirstRegistered(plugins, candidates[1..])
  }

  /** The first registered candidate, or the nearest one when none is. */
  function ResolvePluginReference(plugins: set<string>, caller: string, reference: string): Result<string, NameError>
  {
    match Candidates(caller, reference)
    case Err(e) => Err(e)
    case Ok(candidates) =>
      match FirstRegistered(plugins, candidates)
      case Some(found) => Ok(found)
      case None => Ok(candidates[0])
  }

  /** `namespace` is the nearest on the caller's chain where a plugin of this name is registered. */
  predicate NearestRegistered(plugins: set<string>, caller: string, reference: string, i: nat)
  {
    var chain := AncestorNamespaces(NamespaceOf(caller));
    i < |chain| && Qualify(chain[i], reference) in plugins
    && forall j | 0 <= j < i :: Qualify(chain[j], reference) !in plugins
  }

  lemma {:induction false} FirstIsNearest(plugins: set<string>, candidates: seq<string>, i: nat)
    requires i < |candidates| && candidates[i] in plugins && forall j | 0 <= j < i :: candidates[j] !in plugins
    ensures FirstRegistered(plugins, candidates) == Some(candidates[i])
  {
    if i > 0 {
      FirstIsNearest(plugins, candidates[1..], i - 1);
    }
  }

  lemma {:induction false} NoneRegistered(plugins: set<string>, candidates: seq<string>)
    requires forall j | 0 <= j < |candidates| :: candidates[j] !in plugins
    ensures FirstRegistered(plugins, candidates) == None
  {
    if candidates != [] {
      NoneRegistered(plugins, candidates[1..]);
    }
  }

  lemma {:induction false} FindNearest(plugins: set<string>, caller: string, reference: string) returns (i: Option<nat>)
    ensures i.Some? ==> NearestRegistered(plugins, caller, reference, i.value)
    ensures i.None? ==> forall ns | ns in AncestorNamespaces(NamespaceOf(caller)) :: Qualify(ns, reference) !in plugins
  {
    var chain := AncestorNamespaces(NamespaceOf(caller));
    var k := 0;
    while k < |chain| && Qualify(chain[k], reference) !in plugins
      invariant k <= |chain| && forall j | 0 <= j < k :: Qualify(chain[j], reference) !in plugins
    {
      k := k + 1;
    }
    return if k < |chain| then Some(k) else None;
  }

  /** A valid reference denotes the nearest registered plugin of that name, else the caller's own namespace's. */
  lemma {:induction false} ResolvesToNearest(plugins: set<string>, caller: string, reference: string)
    ensures ResolvePluginReference(plugins, caller, reference).Ok? <==> ValidateName(PluginName, reference).Ok?
    ensures ValidateName(PluginName, reference).Ok? ==>
      var chain := AncestorNamespaces(NamespaceOf(caller));
      var r := ResolvePluginReference(plugins, caller, reference).value;
      && (forall i: nat | NearestRegistered(plugins, caller, reference, i) :: r == Qualify(chain[i], reference))
      && ((forall ns | ns in chain :: Qualify(ns, reference) !in plugins) ==>
        r == Qualify(NamespaceOf(caller), reference))
  {
    hide ValidateName, AncestorNamespaces;
    if ValidateName(PluginName, reference).Ok? {
      var chain := AncestorNamespaces(NamespaceOf(caller));
      var candidates := QualifyEach(chain, reference);
      forall i: nat | NearestRegistered(plugins, caller, reference, i)
        ensures ResolvePluginReference(plugins, caller, reference) == Ok(Qualify(chain[i], reference))
      {
        FirstIsNearest(plugins, candidates, i);
      }
      if forall ns | ns in chain :: Qualify(ns, reference) !in plugins {
        NoneRegistered(plugins, candidates);
      }
    }
  }

  /** What a reference denotes has that local name and sits on the caller's chain. */
  lemma {:induction false} ResolvedIsOnChain(plugins: set<string>, caller: string, reference: string)
    requires ValidateName(PluginName, reference).Ok?
    ensures var r := ResolvePluginReference(plugins, caller, reference);
      r.Ok? && LocalNameOf(r.value) == reference && IsOnChain(r.value, caller)
  {
    hide ValidateName, AncestorNamespaces, LastSeparator;
    AcceptsExactlyNames(PluginName, reference);
    ResolvesToNearest(plugins, caller, reference);
    var chain := AncestorNamespaces(NamespaceOf(caller));
    var i := FindNearest(plugins, caller, reference);
    var ns := match i case Some(k) => chain[k] case None => chain[0];
    assert ResolvePluginReference(plugins, caller, reference) == Ok(Qualify(ns, reference));
    QualifyThenSplit(ns, reference);
  }

  /** Registering one more plugin leaves an answer as it was or makes it the new plugin. */
  lemma {:induction false} OneMorePlugin(plugins: set<string>, p: string, caller: string, reference: string)
    ensures var before, after := ResolvePluginReference(plugins, caller, reference),
                                 ResolvePluginReference(plugins + {p}, caller, reference);
      && (after == before || after == Ok(p))
      && (after != before ==> LocalNameOf(p) == reference && IsOnChain(p, caller))
  {
    hide ValidateName, AncestorNamespaces, LastSeparator, IsOnChain, ResolvePluginReference;
    ResolvesToNearest(plugins, caller, reference);
    ResolvesToNearest(plugins + {p}, caller, reference);
    if ValidateName(PluginName, reference).Ok? {
      ResolvedIsOnChain(plugins + {p}, caller, reference);
      var i := FindNearest(plugins, caller, reference);
      var j := FindNearest(plugins + {p}, caller, reference);
      if i.Some? && j.Some? && j.value == i.value {
      } else if j.Some? {
        var chain := AncestorNamespaces(NamespaceOf(caller));
        assert Qualify(chain[j.value], reference) == p;
      }
    } else {
      InvalidStaysInvalid(plugins, p, caller, reference);
    }
  }

  lemma {:induction false} InvalidStaysInvalid(plugins: set<string>, p: string, caller: string, reference: string)
    requires ValidateName(PluginName, reference).Err?
    ensures ResolvePluginReference(plugins, caller, reference) ==
      ResolvePluginReference(plugins + {p}, caller, reference)
  {
  }

  // ------------------------------------------------------------ grants

  predicate Matches(pattern: NamePattern, name: string)
  {
    pattern.Any? || pattern.name == name
  }

  predicate Grants(w: World, caller: string, grant: Permission, target: string)
  {
    match grant
    case InvokePlugin(Any) => NamespaceOf(caller) == NamespaceOf(target)
    case InvokePlugin(Exact(name)) => ResolvePluginReference(w.plugins, caller, name) == Ok(target)
    case _ => false
  }

  predicate CheckInvokePlugin(w: World, caller: string, target: string)
  {
    exists grant | grant in PermissionsFor(w, caller) :: Grants(w, caller, grant, target)
  }

  predicate CheckInvokeRole(w: World, caller: string, role: string)
  {
    exists grant | grant in PermissionsFor(w, caller) :: grant.InvokeRole? && Matches(grant.role, role)
  }

  /** The caller's manifest was granted this. */
  predicate Granted(w: World, caller: string, grant: Permission)
  {
    caller in w.grants && grant in w.grants[caller]
  }

  /**
   * What a list of grants authorises. Besides the wildcard for its own namespace, only the exact grant of the target's
   * own name can, and only while that name, written by the caller, denotes the target: grant and reference never part.
   */
  lemma {:induction false} ExactGrantFollowsTheReference(w: World, caller: string, target: string)
    ensures CheckInvokePlugin(w, caller, target) <==>
      || (Granted(w, caller, InvokePlugin(Any)) && NamespaceOf(caller) == NamespaceOf(target))
      || (Granted(w, caller, InvokePlugin(Exact(LocalNameOf(target)))) &&
          ResolvePluginReference(w.plugins, caller, LocalNameOf(target)) == Ok(target))
  {
    hide ResolvePluginReference, AncestorNamespaces, LastSeparator, NamespaceOf, LocalNameOf;
    var grants := PermissionsFor(w, caller);
    if CheckInvokePlugin(w, caller, target) {
      var grant :| grant in grants && Grants(w, caller, grant, target);
      if grant.plugin.Exact? {
        ResolvesToNearest(w.plugins, caller, grant.plugin.name);
        ResolvedIsOnChain(w.plugins, caller, grant.plugin.name);
      } else {
        assert grant == InvokePlugin(Any);
      }
    } else {
      assert !Grants(w, caller, InvokePlugin(Any), target) || InvokePlugin(Any) !in grants;
      var exact := InvokePlugin(Exact(LocalNameOf(target)));
      assert !Grants(w, caller, exact, target) || exact !in grants;
    }
  }

  /** A role is authorised by the wildcard for roles or by the grant of exactly that role. */
  lemma {:induction false} RoleGrantsAre(w: World, caller: string, role: string)
    ensures CheckInvokeRole(w, caller, role) <==>
      Granted(w, caller, InvokeRole(Any)) || Granted(w, caller, InvokeRole(Exact(role)))
  {
    var grants := PermissionsFor(w, caller);
    if CheckInvokeRole(w, caller, role) {
      var grant :| grant in grants && grant.InvokeRole? && Matches(grant.role, role);
      assert grant in [InvokeRole(Any), InvokeRole(Exact(role))];
    } else {
      assert InvokeRole(Any).InvokeRole? && InvokeRole(Exact(role)).InvokeRole?;
    }
  }

  /** No plugin grant reaches off the caller's chain, and the wildcard not even above it. */
  lemma {:induction false} GrantsStayOnChain(w: World, caller: string, target: string)
    requires CheckInvokePlugin(w, caller, target)
    ensures IsOnChain(target, caller)
    ensures (forall grant | grant in PermissionsFor(w, caller) :: grant.InvokePlugin? ==> grant.plugin.Any?) ==>
      NamespaceOf(target) == NamespaceOf(caller)
  {
    hide ResolvePluginReference, AncestorNamespaces;
    var grant :| grant in PermissionsFor(w, caller) && Grants(w, caller, grant, target);
    match grant.plugin {
      case Any =>
        OnChainIsContainment(target, caller);
      case Exact(name) =>
        ResolvesToNearest(w.plugins, caller, name);
        ResolvedIsOnChain(w.plugins, caller, name);
    }
  }

  /** The check on the plan the orchestrator returned: containment first, then self, alias owner and grants. */
  function AuthorizeResolvedDispatch(w: World, caller: string, request: Request, target: string,
                                     alsoAllowed: Option<string>)
    : Result<(), Denial>
  {
    if !IsOnChain(target, caller) then Err(OffChain)
    else if target == caller || alsoAllowed == Some(target) then Ok(())
    else if CheckInvokePlugin(w, caller, target) then Ok(())
    else if request.ByRole? && CheckInvokeRole(w, caller, request.role) then Ok(())
    else Err(NoGrant)
  }

  /**
   * A redirect never launders authority: whatever was requested, what is accepted is the caller itself, a plugin it was
   * granted, or one in its namespace or an enclosing one that the alias, the role wildcard or that very role granted.
   */
  lemma {:induction false} RedirectsNeedTheirOwnGrant(w: World, caller: string, request: Request, target: string,
                                                      alsoAllowed: Option<string>)
    ensures AuthorizeResolvedDispatch(w, caller, request, target, alsoAllowed).Ok? <==>
      || target == caller
      || CheckInvokePlugin(w, caller, target)
      || (Encloses(NamespaceOf(target), NamespaceOf(caller)) &&
          (alsoAllowed == Some(target)
           || (request.ByRole? &&
               (Granted(w, caller, InvokeRole(Any)) || Granted(w, caller, InvokeRole(Exact(request.role)))))))
    ensures AuthorizeResolvedDispatch(w, caller, request, target, alsoAllowed) == Err(OffChain) <==>
      !Encloses(NamespaceOf(target), NamespaceOf(caller))
  {
    hide IsOnChain, CheckInvokePlugin, CheckInvokeRole, Granted, Encloses;
    OnChainIsReflexive(caller);
    OnChainIsContainment(target, caller);
    if request.ByRole? {
      RoleGrantsAre(w, caller, request.role);
    }
    if CheckInvokePlugin(w, caller, target) {
      GrantsStayOnChain(w, caller, target);
    }
  }

  /** The dispatch a caller asks for by a name it was granted is accepted, whatever has loaded since. */
  lemma {:induction false} GrantedReferenceIsAccepted(w: World, caller: string, name: string, request: Request,
                                                      alsoAllowed: Option<string>)
    requires Granted(w, caller, InvokePlugin(Exact(name))) && ValidateName(PluginName, name).Ok?
    ensures var target := ResolvePluginReference(w.plugins, caller, name);
      target.Ok? && AuthorizeResolvedDispatch(w, caller, request, target.value, alsoAllowed).Ok?
  {
    hide Encloses, ResolvePluginReference, CheckInvokePlugin, AuthorizeResolvedDispatch;
    ResolvedIsOnChain(w.plugins, caller, name);
    var target := ResolvePluginReference(w.plugins, caller, name).value;
    ExactGrantFollowsTheReference(w, caller, target);
    RedirectsNeedTheirOwnGrant(w, caller, request, target, alsoAllowed);
  }

  // ------------------------------------------------------------ chains of dispatches

  const INVOKE_MAX_DEPTH := 16

  /** A running action: its plugin, and how many dispatches lie above it. */
  datatype Invocation = Invocation(plugin: string, invokeDepth: nat)

  /** One dispatch: the registry and grants as they are at that moment, and the plan the orchestrator returned. */
  datatype Hop = Hop(world: World, request: Request, target: string, alsoAllowed: Option<string>)

  /** The callee a dispatch starts, one deeper than its caller. */
  function Invoked(parent: Invocation, hop: Hop): Result<Invocation, Denial>
  {
    if parent.invokeDepth >= INVOKE_MAX_DEPTH then Err(TooDeep)
    else
      match AuthorizeResolvedDispatch(hop.world, parent.plugin, hop.request, hop.target, hop.alsoAllowed)
      case Err(e) => Err(e)
      case Ok(_) => Ok(Invocation(hop.target, parent.invokeDepth + 1))
  }

  /** Each invocation started the next. */
  predicate Chain(path: seq<Invocation>, hops: seq<Hop>)
  {
    |path| == |hops| + 1 && forall i: nat | i < |hops| :: Invoked(path[i], hops[i]) == Ok(path[i + 1])
  }

  lemma {:induction false} DepthIsPosition(path: seq<Invocation>, hops: seq<Hop>, i: nat)
    requires Chain(path, hops) && i < |path|
    ensures path[i].invokeDepth == path[0].invokeDepth + i
  {
    hide AuthorizeResolvedDispatch;
    if i > 0 {
      DepthIsPosition(path, hops, i - 1);
      assert Invoked(path[i - 1], hops[i - 1]) == Ok(path[i]);
    }
  }

  lemma {:induction false} ClimbsFrom(path: seq<Invocation>, hops: seq<Hop>, i: nat, j: nat)
    requires Chain(path, hops) && i <= j < |path|
    ensures IsOnChain(path[j].plugin, path[i].plugin)
    decreases j - i
  {
    hide AncestorNamespaces, IsOnChain, CheckInvokePlugin, CheckInvokeRole;
    if i == j {
      OnChainIsReflexive(path[i].plugin);
    } else {
      ClimbsFrom(path, hops, i, j - 1);
      assert Invoked(path[j - 1], hops[j - 1]) == Ok(path[j]);
      OnChainIsTransitive(path[j].plugin, path[j - 1].plugin, path[i].plugin);
    }
  }

  /**
   * However the registry changes meanwhile, a chain from the outside has at most 16 hops and every callee is above each
   * earlier one.
   */
  lemma {:induction false} ChainsOnlyClimb(path: seq<Invocation>, hops: seq<Hop>)
    requires Chain(path, hops) && path[0].invokeDepth == 0
    ensures |hops| <= 16
    ensures forall i: nat, j: nat | i <= j < |path| :: IsOnChain(path[j].plugin, path[i].plugin)
  {
    hide IsOnChain, AuthorizeResolvedDispatch;
    if |hops| > 0 {
      var last := |hops| - 1;
      DepthIsPosition(path, hops, last);
      assert Invoked(path[last], hops[last]) == Ok(path[last + 1]);
    }
    forall i: nat, j: nat | i <= j < |path|
      ensures IsOnChain(path[j].plugin, path[i].plugin)
    {
      ClimbsFrom(path, hops, i, j);
    }
  }

  /** A chain that comes back to a namespace never left it. */
  lemma {:induction false} NoReturnToANamespace(path: seq<Invocation>, hops: seq<Hop>, i: nat, j: nat, k: nat)
    requires Chain(path, hops) && i <= j <= k < |path|
    requires NamespaceOf(path[i].plugin) == NamespaceOf(path[k].plugin)
    ensures NamespaceOf(path[j].plugin) == NamespaceOf(path[i].plugin)
  {
    hide Invoked, AncestorNamespaces;
    ClimbsFrom(path, hops, i, j);
    ClimbsFrom(path, hops, j, k);
    OnChainIsAntisymmetric(path[i].plugin, path[j].plugin);
  }

  /** The cap is reached: a plugin invoking itself runs sixteen deep, and from there every dispatch is refused. */
  lemma {:induction false} SixteenHopsAreReached(p: string)
    ensures exists path, hops ::
      && Chain(path, hops) && path[0] == Invocation(p, 0) && |hops| == 16
      && forall hop :: Invoked(path[|hops|], hop) == Err(TooDeep)
  {
    hide IsOnChain;
    var hop := Hop(World({p}, map[]), ByPlugin(p), p, None);
    var hops := seq(INVOKE_MAX_DEPTH, _ => hop);
    var path := seq(INVOKE_MAX_DEPTH + 1, i requires 0 <= i => Invocation(p, i));
    OnChainIsReflexive(p);
    forall i: nat | i < |hops|
      ensures Invoked(path[i], hops[i]) == Ok(path[i + 1])
    {
      assert path[i] == Invocation(p, i) && hops[i] == hop;
    }
    assert Chain(path, hops) && path[0] == Invocation(p, 0);
    assert path[|hops|] == Invocation(p, INVOKE_MAX_DEPTH);
    assert forall other :: Invoked(path[|hops|], other) == Err(TooDeep);
  }
}

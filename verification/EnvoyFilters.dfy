/**
  The patches that switch Envoy's external authorization on per virtual host and route
  (controller/envoyfilter/envoyfilter.go), and where the names they carry lead.
 */
module EnvoyFilters {
  import opened Options
  import opened Policies

  datatype ApplyTo = ToCluster | ToHttpFilter | ToVirtualHost | ToHttpRoute
  datatype Target =
    | Gateway
    | EnvoyRouter
    | VirtualHost(vhost: string)
    | VirtualHostRoute(vhost: string, route: string)
    | ClusterOf(service: string, port: string, subset: string)
  datatype Operation = Merge | InsertBefore
  datatype Value =
    | ClusterName(name: string)
    | ExtAuthz(cluster: string, timeout: string)
    | CheckSettings(extensions: map<string, string>)
    | Disabled
  datatype Patch = Patch(applyTo: ApplyTo, target: Target, operation: Operation, value: Value)

  /** The configured cluster name, taken apart if it has Istio's form; the port as decimal text. */
  datatype IstioCluster = IstioCluster(service: string, port: string, subset: string)
  datatype Config = Config(clusterName: string, timeout: string, istio: Option<IstioCluster>)

  function ExtAuthzPerRoute(policy: string, route: string, data: Option<Route>): Value {
    if data.Some? && data.value.enableAuthz then CheckSettings(map[NAME_KEY := policy, ROUTE_KEY := route])
    else Disabled
  }

  function ExtAuthzCluster(cfg: Config): string {
    match cfg.istio
    case Some(c) => c.service + ":" + c.port
    case None => cfg.clusterName
  }

  /** The patches that do not depend on policies; the last one switches authorization off by default. */
  function Fixed(cfg: Config): seq<Patch> {
    (match cfg.istio
     case Some(c) =>
       [Patch(ToCluster, ClusterOf(c.service, c.port, c.subset), Merge, ClusterName(ExtAuthzCluster(cfg)))]
     case None => []) +
    [Patch(ToHttpFilter, EnvoyRouter, InsertBefore, ExtAuthz(ExtAuthzCluster(cfg), cfg.timeout)),
     Patch(ToVirtualHost, Gateway, Merge, ExtAuthzPerRoute("", "", None))]
  }

  function DefaultPatch(pol: Policy, vhost: string): Patch {
    Patch(ToVirtualHost, VirtualHost(vhost), Merge, ExtAuthzPerRoute(pol.name, "", Some(pol.default)))
  }

  function RoutePatch(pol: Policy, vhost: string, route: string): Patch
    requires route in pol.routes
  {
    Patch(ToHttpRoute, VirtualHostRoute(vhost, route), Merge,
          ExtAuthzPerRoute(pol.name, route, Some(pol.routes[route])))
  }

  // ---------------------------------------------------------------------------
  // What has to come out, whatever order the maps are walked in

  function RoutePatches(pol: Policy, vhost: string, routes: set<string>): set<Patch>
    requires routes <= pol.routes.Keys
  {
    set r | r in routes :: RoutePatch(pol, vhost, r)
  }

  function VhostPatches(pol: Policy, vhost: string): multiset<Patch> {
    multiset{DefaultPatch(pol, vhost)} + multiset(RoutePatches(pol, vhost, pol.routes.Keys))
  }

  function HostsPatches(pol: Policy, vhosts: seq<string>): multiset<Patch> {
    if vhosts == [] then multiset{}
    else HostsPatches(pol, vhosts[..|vhosts| - 1]) + VhostPatches(pol, vhosts[|vhosts| - 1])
  }

  function AllPatches(pols: seq<Policy>): multiset<Patch> {
    if pols == [] then multiset{}
    else AllPatches(pols[..|pols| - 1]) + HostsPatches(pols[|pols| - 1], pols[|pols| - 1].virtualHosts)
  }

  // ---------------------------------------------------------------------------
  // The same patch by patch

  /** What a patch says of an enforced route and of one that is not. */
  function Told(policy: string, route: string, enforced: bool): Value {
    if enforced then CheckSettings(map["accessPolicy" := policy, "route" := route]) else Disabled
  }

  /** The patch of a policy's default route on a virtual host, or of one of its named routes there. */
  ghost predicate Patches(pol: Policy, vhost: string, x: Patch) {
    || x == Patch(ToVirtualHost, VirtualHost(vhost), Merge, Told(pol.name, "", pol.default.enableAuthz))
    || exists r :: r in pol.routes &&
         x == Patch(ToHttpRoute, VirtualHostRoute(vhost, r), Merge, Told(pol.name, r, pol.routes[r].enableAuthz))
  }

  ghost predicate ComesFrom(pols: seq<Policy>, x: Patch) {
    exists pol, vhost :: pol in pols && vhost in pol.virtualHosts && Patches(pol, vhost, x)
  }

  /** The one HTTP filter, in front of the router, asks the cluster by its name there. */
  ghost predicate OneFilter(cfg: Config, patches: seq<Patch>) {
    var name := if cfg.istio.Some? then cfg.istio.value.service + ":" + cfg.istio.value.port else cfg.clusterName;
    exists i :: 0 <= i < |patches| &&
      patches[i] == Patch(ToHttpFilter, EnvoyRouter, InsertBefore, ExtAuthz(name, cfg.timeout)) &&
      forall j :: 0 <= j < |patches| && j != i ==> patches[j].applyTo != ToHttpFilter
  }

  /** A cluster is renamed exactly if it is one of Istio's, and it is that one. */
  ghost predicate ClusterRenamed(cfg: Config, patches: seq<Patch>) {
    match cfg.istio
    case None => forall j :: 0 <= j < |patches| ==> patches[j].applyTo != ToCluster
    case Some(c) =>
      exists i :: 0 <= i < |patches| &&
        patches[i] == Patch(ToCluster, ClusterOf(c.service, c.port, c.subset), Merge,
                            ClusterName(c.service + ":" + c.port)) &&
        forall j :: 0 <= j < |patches| && j != i ==> patches[j].applyTo != ToCluster
  }

  /** One patch concerns every virtual host of the gateway, and it switches authorization off. */
  ghost predicate OffByDefault(patches: seq<Patch>) {
    exists i :: 0 <= i < |patches| && patches[i] == Patch(ToVirtualHost, Gateway, Merge, Disabled) &&
      forall j :: 0 <= j < |patches| && j != i ==> patches[j].target != Gateway
  }

  /** Any other patch is one of a policy, and each of those is there. */
  ghost predicate OthersFromPolicies(pols: seq<Policy>, patches: seq<Patch>) {
    forall x :: (x in patches && x.applyTo != ToCluster && x.applyTo != ToHttpFilter && x.target != Gateway) <==>
                ComesFrom(pols, x)
  }

  ghost predicate Expected(cfg: Config, pols: seq<Policy>, patches: seq<Patch>) {
    && OneFilter(cfg, patches) && ClusterRenamed(cfg, patches) && OffByDefault(patches)
    && OthersFromPolicies(pols, patches)
    && |patches| == (if cfg.istio.Some? then 3 else 2) + PatchCount(pols)
  }

  lemma VhostPatchesExact(pol: Policy, vhost: string, x: Patch)
    ensures x in VhostPatches(pol, vhost) <==> Patches(pol, vhost, x)
  {
    if r :| r in pol.routes && x == RoutePatch(pol, vhost, r) {
      assert x in RoutePatches(pol, vhost, pol.routes.Keys);
    }
  }

  lemma AllPatchesExact(pols: seq<Policy>, x: Patch)
    ensures x in AllPatches(pols) <==> ComesFrom(pols, x)
  {
    if x in AllPatches(pols) {
      var pol, vhost := PatchOfPolicy(pols, x);
      VhostPatchesExact(pol, vhost, x);
    }
    if pol, vhost :| pol in pols && vhost in pol.virtualHosts && Patches(pol, vhost, x) {
      VhostPatchesExact(pol, vhost, x);
      HostIncluded(pol, pol.virtualHosts, vhost);
      PolicyIncluded(pols, pol, x);
    }
  }

  lemma FixedThenPolicies(cfg: Config, pols: seq<Policy>, patches: seq<Patch>)
    requires Fixed(cfg) <= patches && multiset(patches[|Fixed(cfg)|..]) == AllPatches(pols)
    ensures forall j :: |Fixed(cfg)| <= j < |patches| ==> ComesFrom(pols, patches[j])
    ensures forall x :: ComesFrom(pols, x) ==> x in patches
    ensures |patches| == |Fixed(cfg)| + PatchCount(pols)
  {
    var rest := patches[|Fixed(cfg)|..];
    forall j | |Fixed(cfg)| <= j < |patches| ensures ComesFrom(pols, patches[j]) {
      assert patches[j] == rest[j - |Fixed(cfg)|];
      assert patches[j] in multiset(rest);
      AllPatchesExact(pols, patches[j]);
    }
    forall x | ComesFrom(pols, x) ensures x in patches {
      AllPatchesExact(pols, x);
      assert x in multiset(rest);
      var k :| 0 <= k < |rest| && rest[k] == x;
      assert patches[|Fixed(cfg)| + k] == x;
    }
    AllPatchesSize(pols);
    assert |multiset(rest)| == |rest|;
  }

  lemma FromPoliciesOnly(pols: seq<Policy>, x: Patch)
    requires ComesFrom(pols, x)
    ensures x.applyTo != ToCluster && x.applyTo != ToHttpFilter && x.target != Gateway
  {}

  /** The fixed patches and those of the policies make what is expected. */
  lemma FilterExact(cfg: Config, pols: seq<Policy>, patches: seq<Patch>)
    requires Fixed(cfg) <= patches && multiset(patches[|Fixed(cfg)|..]) == AllPatches(pols)
    ensures Expected(cfg, pols, patches)
  {
    FixedThenPolicies(cfg, pols, patches);
    forall x | ComesFrom(pols, x) ensures x.applyTo != ToCluster && x.applyTo != ToHttpFilter && x.target != Gateway {
      FromPoliciesOnly(pols, x);
    }
    var n := |Fixed(cfg)|;
    assert patches[n - 2] == Fixed(cfg)[n - 2] && patches[n - 1] == Fixed(cfg)[n - 1];
    assert n == 3 ==> patches[0] == Fixed(cfg)[0];
    assert OffByDefault(patches);
    assert OneFilter(cfg, patches);
  }

  /** Checking is switched on exactly by the patches of enforced routes, each with its policy's and its own name. */
  lemma CheckedExactly(cfg: Config, pols: seq<Policy>, patches: seq<Patch>, x: Patch)
    requires Expected(cfg, pols, patches) && x in patches
    ensures x.value.CheckSettings? <==>
            exists pol, vhost :: pol in pols && vhost in pol.virtualHosts && Patches(pol, vhost, x) &&
              match x.target
              case VirtualHost(_) => pol.default.enableAuthz
              case VirtualHostRoute(_, r) => r in pol.routes && pol.routes[r].enableAuthz
              case _ => false
  {
    if x.value.CheckSettings? {
      assert ComesFrom(pols, x);
    }
  }

  lemma RoutePatchesOneMore(pol: Policy, vhost: string, routes: set<string>, r: string)
    requires routes <= pol.routes.Keys && r in pol.routes && r !in routes
    ensures RoutePatches(pol, vhost, routes + {r}) ==
            RoutePatches(pol, vhost, routes) + {RoutePatch(pol, vhost, r)}
    ensures RoutePatch(pol, vhost, r) !in RoutePatches(pol, vhost, routes)
  {}

  method NewEnvoyFilter(cfg: Config, pols: seq<Policy>) returns (patches: seq<Patch>)
    ensures Fixed(cfg) <= patches && multiset(patches[|Fixed(cfg)|..]) == AllPatches(pols)
    ensures Expected(cfg, pols, patches)
  {
    patches := [];
    var clusterName;
    if cfg.istio.Some? {
      var c := cfg.istio.value;
      clusterName := c.service + ":" + c.port;
      patches := patches + [Patch(ToCluster, ClusterOf(c.service, c.port, c.subset), Merge, ClusterName(clusterName))];
    } else {
      clusterName := cfg.clusterName;
    }
    patches := patches + [Patch(ToHttpFilter, EnvoyRouter, InsertBefore, ExtAuthz(clusterName, cfg.timeout))];
    patches := patches + [Patch(ToVirtualHost, Gateway, Merge, ExtAuthzPerRoute("", "", None))];
    assert patches == Fixed(cfg);
    var rest := [];
    for i := 0 to |pols|
      invariant multiset(rest) == AllPatches(pols[..i])
    {
      assert pols[..i + 1][..i] == pols[..i];
      var part := PolicyLoop(pols[i]);
      rest := rest + part;
    }
    assert pols[..|pols|] == pols;
    patches := patches + rest;
    assert patches[|Fixed(cfg)|..] == rest;
    FilterExact(cfg, pols, patches);
  }

  method PolicyLoop(pol: Policy) returns (patches: seq<Patch>)
    ensures multiset(patches) == HostsPatches(pol, pol.virtualHosts)
  {
    patches := [];
    var vhosts := pol.virtualHosts;
    for i := 0 to |vhosts|
      invariant multiset(patches) == HostsPatches(pol, vhosts[..i])
    {
      assert vhosts[..i + 1][..i] == vhosts[..i];
      var part := VhostLoop(pol, vhosts[i]);
      patches := patches + part;
    }
    assert vhosts[..|vhosts|] == vhosts;
  }

  method VhostLoop(pol: Policy, vhost: string) returns (patches: seq<Patch>)
    ensures multiset(patches) == VhostPatches(pol, vhost)
  {
    patches := [Patch(ToVirtualHost, VirtualHost(vhost), Merge, ExtAuthzPerRoute(pol.name, "", Some(pol.default)))];
    var todo := pol.routes.Keys;
    ghost var done: set<string> := {};
    while todo != {}
      invariant todo !! done && todo + done == pol.routes.Keys
      invariant multiset(patches) == multiset{DefaultPatch(pol, vhost)} + multiset(RoutePatches(pol, vhost, done))
      decreases todo
    {
      var route :| route in todo;
      RoutePatchesOneMore(pol, vhost, done, route);
      patches := patches + [Patch(ToHttpRoute, VirtualHostRoute(vhost, route), Merge,
                                  ExtAuthzPerRoute(pol.name, route, Some(pol.routes[route])))];
      todo, done := todo - {route}, done + {route};
    }
  }

  // ---------------------------------------------------------------------------
  // How many there are

  function PatchCount(pols: seq<Policy>): nat {
    if pols == [] then 0
    else
      var pol := pols[|pols| - 1];
      PatchCount(pols[..|pols| - 1]) + |pol.virtualHosts| * (1 + |pol.routes|)
  }

  lemma {:induction false} RoutePatchesSize(pol: Policy, vhost: string, routes: set<string>)
    requires routes <= pol.routes.Keys
    ensures |RoutePatches(pol, vhost, routes)| == |routes|
    decreases routes
  {
    if routes == {} {
      assert RoutePatches(pol, vhost, routes) == {};
    } else {
      var r :| r in routes;
      RoutePatchesSize(pol, vhost, routes - {r});
      RoutePatchesOneMore(pol, vhost, routes - {r}, r);
      assert routes - {r} + {r} == routes;
    }
  }

  lemma {:induction false} HostsPatchesSize(pol: Policy, vhosts: seq<string>)
    ensures |HostsPatches(pol, vhosts)| == |vhosts| * (1 + |pol.routes|)
  {
    if vhosts != [] {
      HostsPatchesSize(pol, vhosts[..|vhosts| - 1]);
      RoutePatchesSize(pol, vhosts[|vhosts| - 1], pol.routes.Keys);
      assert |vhosts| * (1 + |pol.routes|) == (|vhosts| - 1) * (1 + |pol.routes|) + (1 + |pol.routes|);
    }
  }

  /** One patch per virtual host and one per virtual host and route. */
  lemma {:induction false} AllPatchesSize(pols: seq<Policy>)
    ensures |AllPatches(pols)| == PatchCount(pols)
  {
    if pols != [] {
      AllPatchesSize(pols[..|pols| - 1]);
      HostsPatchesSize(pols[|pols| - 1], pols[|pols| - 1].virtualHosts);
    }
  }

  // ---------------------------------------------------------------------------
  // From the resources to the patches and back

  /** `fetchAccessPolicies`: the convertible policies of one workload selector, without credentials. */
  function FetchPolicies(aps: seq<Applied>, selector: Labels, parse: UrlParser): seq<Policy> {
    if aps == [] then []
    else
      var ap := aps[|aps| - 1].ap;
      var rest := FetchPolicies(aps[..|aps| - 1], selector, parse);
      if ap.selector == selector && Convert(ap, None, [], parse).Some?
      then rest + [Convert(ap, None, [], parse).value] else rest
  }

  lemma {:induction false} FetchedFrom(aps: seq<Applied>, selector: Labels, parse: UrlParser, pol: Policy)
    returns (i: nat)
    requires pol in FetchPolicies(aps, selector, parse)
    ensures i < |aps| && aps[i].ap.selector == selector && Convert(aps[i].ap, None, [], parse) == Some(pol)
  {
    var n := |aps| - 1;
    if pol in FetchPolicies(aps[..n], selector, parse) {
      i := FetchedFrom(aps[..n], selector, parse, pol);
    } else {
      i := n;
    }
  }

  lemma {:induction false} PatchOfHost(pol: Policy, vhosts: seq<string>, x: Patch) returns (vhost: string)
    requires x in HostsPatches(pol, vhosts)
    ensures vhost in vhosts && x in VhostPatches(pol, vhost)
  {
    var n := |vhosts| - 1;
    if x in HostsPatches(pol, vhosts[..n]) {
      vhost := PatchOfHost(pol, vhosts[..n], x);
    } else {
      vhost := vhosts[n];
    }
  }

  lemma {:induction false} PatchOfPolicy(pols: seq<Policy>, x: Patch) returns (pol: Policy, vhost: string)
    requires x in AllPatches(pols)
    ensures pol in pols && vhost in pol.virtualHosts && x in VhostPatches(pol, vhost)
  {
    var n := |pols| - 1;
    if x in AllPatches(pols[..n]) {
      pol, vhost := PatchOfPolicy(pols[..n], x);
    } else {
      pol := pols[n];
      vhost := PatchOfHost(pol, pol.virtualHosts, x);
    }
  }

  /** `x` is the patch that a resource asks for on a virtual host and a route name. */
  ghost predicate PatchFor(ap: Resource, vhost: string, name: string, x: Patch) {
    exists route :: Means(ap, name, route) &&
      x == Patch(if name == "" then ToVirtualHost else ToHttpRoute,
                 if name == "" then VirtualHost(vhost) else VirtualHostRoute(vhost, name),
                 Merge, Told(ap.namespace + "/" + ap.name, name, route.enableAuthz))
  }

  lemma PatchOfRoute(ap: Resource, parse: UrlParser, pol: Policy, vhost: string, x: Patch) returns (name: string)
    requires Says(ap, None, [], parse, pol) && Patches(pol, vhost, x)
    ensures PatchFor(ap, vhost, name, x)
  {
    if x.applyTo == ToVirtualHost {
      name := "";
      assert Means(ap, name, pol.default);
    } else {
      name :| name in pol.routes &&
              x == Patch(ToHttpRoute, VirtualHostRoute(vhost, name), Merge,
                         Told(pol.name, name, pol.routes[name].enableAuthz));
      assert Means(ap, name, pol.routes[name]);
    }
  }

  /** The entry that `name` stands for switches enforcement off. */
  predicate SwitchedOff(ap: Resource, name: string) {
    LastNamed(ap.routes, name).Some? && LastNamed(ap.routes, name).value.disableEnforcement
  }

  lemma PatchValue(ap: Resource, vhost: string, name: string, x: Patch)
    requires PatchFor(ap, vhost, name, x)
    ensures x.value == if SwitchedOff(ap, name) then Disabled
                       else CheckSettings(map["accessPolicy" := ap.namespace + "/" + ap.name, "route" := name])
  {}

  /**
    Every patch comes from a listed resource, one of its virtual hosts and one of its route
    names; it is disabled exactly when that route switches enforcement off. Otherwise, once the
    worker has last converted that very resource, among whatever others, the names the patch
    carries lead the server to the policy as the resource says and the route it means.
   */
  lemma EveryPatchResolves(
      aps: seq<Applied>, applied: seq<Applied>, selector: Labels, parse: UrlParser, x: Patch)
    returns (i: nat, vhost: string, name: string)
    requires Namespaced(applied) && x in AllPatches(FetchPolicies(aps, selector, parse))
    ensures i < |aps| && aps[i].ap.selector == selector && vhost in aps[i].ap.virtualHosts
    ensures PatchFor(aps[i].ap, vhost, name, x)
    ensures x.value == Disabled <==> SwitchedOff(aps[i].ap, name)
    ensures x.value != Disabled ==> x.value.CheckSettings?
    ensures x.value != Disabled ==>
            forall k :: 0 <= k < |applied| && applied[k].ap == aps[i].ap && Current(applied, parse, k) ==>
              match Resolve(StoreAll(applied, parse), x.value.extensions)
              case Resolved(pol, route) =>
                && Says(aps[i].ap, Some(applied[k].secret), applied[k].mappings, parse, pol)
                && Means(aps[i].ap, name, route)
              case _ => false
  {
    var pol;
    pol, vhost := PatchOfPolicy(FetchPolicies(aps, selector, parse), x);
    i := FetchedFrom(aps, selector, parse, pol);
    VhostPatchesExact(pol, vhost, x);
    ConvertExact(aps[i].ap, None, [], parse);
    name := PatchOfRoute(aps[i].ap, parse, pol, vhost, x);
    PatchValue(aps[i].ap, vhost, name, x);
    if x.value != Disabled {
      forall k | 0 <= k < |applied| && applied[k].ap == aps[i].ap && Current(applied, parse, k)
        ensures match Resolve(StoreAll(applied, parse), x.value.extensions)
                case Resolved(pol, route) =>
                  && Says(aps[i].ap, Some(applied[k].secret), applied[k].mappings, parse, pol)
                  && Means(aps[i].ap, name, route)
                case _ => false
      {
        ResolveFindsMeant(applied, parse, k, x.value.extensions);
      }
    }
  }

  lemma {:induction false} HostIncluded(pol: Policy, vhosts: seq<string>, vhost: string)
    requires vhost in vhosts
    ensures VhostPatches(pol, vhost) <= HostsPatches(pol, vhosts)
  {
    var n := |vhosts| - 1;
    if vhost in vhosts[..n] {
      HostIncluded(pol, vhosts[..n], vhost);
    }
  }

  lemma {:induction false} PolicyIncluded(pols: seq<Policy>, pol: Policy, x: Patch)
    requires pol in pols && x in HostsPatches(pol, pol.virtualHosts)
    ensures x in AllPatches(pols)
  {
    var n := |pols| - 1;
    if pol in pols[..n] {
      PolicyIncluded(pols[..n], pol, x);
    } else {
      assert pol == pols[n];
    }
  }

  lemma {:induction false} FetchedIncluded(aps: seq<Applied>, selector: Labels, parse: UrlParser, i: nat)
    requires i < |aps| && aps[i].ap.selector == selector && Convert(aps[i].ap, None, [], parse).Some?
    ensures Convert(aps[i].ap, None, [], parse).value in FetchPolicies(aps, selector, parse)
  {
    var n := |aps| - 1;
    if i < n {
      assert aps[..n][i] == aps[i];
      FetchedIncluded(aps[..n], selector, parse, i);
    }
  }

  /** No listed resource of that selector can be converted. */
  predicate NoneApplies(aps: seq<Applied>, selector: Labels, parse: UrlParser) {
    forall i :: 0 <= i < |aps| && aps[i].ap.selector == selector ==> !Convertible(aps[i].ap, None, parse)
  }

  /** What is fetched is what the convertible resources of the selector say, and each of them is there. */
  lemma FetchExact(aps: seq<Applied>, selector: Labels, parse: UrlParser)
    ensures forall pol :: pol in FetchPolicies(aps, selector, parse) ==>
              exists i :: 0 <= i < |aps| && aps[i].ap.selector == selector && Says(aps[i].ap, None, [], parse, pol)
    ensures forall i :: 0 <= i < |aps| && aps[i].ap.selector == selector && Convertible(aps[i].ap, None, parse) ==>
              exists pol :: pol in FetchPolicies(aps, selector, parse) && Says(aps[i].ap, None, [], parse, pol)
    ensures FetchPolicies(aps, selector, parse) == [] <==> NoneApplies(aps, selector, parse)
  {
    var pols := FetchPolicies(aps, selector, parse);
    forall pol | pol in pols
      ensures exists i :: 0 <= i < |aps| && aps[i].ap.selector == selector &&
                Convertible(aps[i].ap, None, parse) && Says(aps[i].ap, None, [], parse, pol)
    {
      var i := FetchedFrom(aps, selector, parse, pol);
      ConvertExact(aps[i].ap, None, [], parse);
    }
    forall i | 0 <= i < |aps| && aps[i].ap.selector == selector && Convertible(aps[i].ap, None, parse)
      ensures exists pol :: pol in pols && Says(aps[i].ap, None, [], parse, pol)
    {
      ConvertExact(aps[i].ap, None, [], parse);
      FetchedIncluded(aps, selector, parse, i);
    }
    if pols != [] {
      assert pols[0] in pols;
    }
  }

  /** And the other way round: every virtual host and meant route name of a fetched resource has its patch. */
  lemma EveryRoutePatched(
      aps: seq<Applied>, selector: Labels, parse: UrlParser, i: nat, vhost: string, name: string, x: Patch)
    requires i < |aps| && aps[i].ap.selector == selector && parse(aps[i].ap.callbackPath).Some?
    requires vhost in aps[i].ap.virtualHosts && PatchFor(aps[i].ap, vhost, name, x)
    ensures x in AllPatches(FetchPolicies(aps, selector, parse))
  {
    var ap := aps[i].ap;
    ConvertExact(ap, None, [], parse);
    var pol := Convert(ap, None, [], parse).value;
    FetchedIncluded(aps, selector, parse, i);
    PatchOfMeant(ap, parse, pol, vhost, name, x);
    AllPatchesExact(FetchPolicies(aps, selector, parse), x);
  }

  lemma PatchOfMeant(ap: Resource, parse: UrlParser, pol: Policy, vhost: string, name: string, x: Patch)
    requires Says(ap, None, [], parse, pol) && PatchFor(ap, vhost, name, x)
    ensures Patches(pol, vhost, x)
  {
    PatchValue(ap, vhost, name, x);
    if name == "" {
      assert Means(ap, "", pol.default);
    } else {
      assert name in pol.routes && Means(ap, name, pol.routes[name]);
    }
  }
}

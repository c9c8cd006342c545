/**
  Access policies: from the Kubernetes resource to the settings the authorization server
  looks up per request (state/accesspolicy/convert.go, store.go, auth/server.go).
 */
module Policies {
  import opened Options
  import opened Roles

  // ---------------------------------------------------------------------------
  // The resource

  /** A workload selector's labels: a selector without any differs from one with an empty map. */
  type Labels = Option<map<string, string>>

  datatype ApiHeader = ApiHeader(name: string, value: string, roles: seq<string>)
  datatype ApiRoute = ApiRoute(name: string, roles: seq<string>, headers: seq<ApiHeader>, disableEnforcement: bool)
  datatype CredentialKeys = CredentialKeys(clientId: string, clientSecret: string, tokenSecret: string)
  datatype Resource = Resource(
    namespace: string, name: string, callbackPath: string, keys: CredentialKeys,
    routes: seq<ApiRoute>, virtualHosts: seq<string>, selector: Labels)

  // ---------------------------------------------------------------------------
  // The settings

  datatype Header = Header(name: string, value: string, roles: seq<string>)
  datatype Route = Route(enableAuthz: bool, roles: seq<string>, headers: seq<Header>)
  datatype Oidc = Oidc(
    mappings: seq<RoleMapping>, clientId: string, clientSecret: string, tokenSecret: string, callback: string)
  datatype Policy = Policy(
    name: string, oidc: Oidc, default: Route, routes: map<string, Route>, virtualHosts: seq<string>)

  /** The metadata keys under which Envoy hands the names back. */
  const NAME_KEY := "accessPolicy"
  const ROUTE_KEY := "route"

  /** `url.Parse` of the callback path: nothing on an error, else the path part. */
  type UrlParser = string -> Option<string>

  // ---------------------------------------------------------------------------
  // Conversion

  function ConvertHeader(h: ApiHeader): Header {
    Header(h.name, h.value, h.roles)
  }

  function ConvertRoute(r: ApiRoute): Route {
    var headers := seq(|r.headers|, i requires 0 <= i < |r.headers| => ConvertHeader(r.headers[i]));
    Route(!r.disableEnforcement, r.roles, headers)
  }

  /** The route that a policy without a route named "" uses. */
  const DEFAULT_ROUTE: Route := Route(true, [], [])

  /** The routes by name and the default route; a later route of the same name wins. */
  function ConvertRoutes(rs: seq<ApiRoute>): (map<string, Route>, Route) {
    if rs == [] then (map[], DEFAULT_ROUTE)
    else
      var (routes, def) := ConvertRoutes(rs[..|rs| - 1]);
      var r := rs[|rs| - 1];
      if r.name == "" then (routes, ConvertRoute(r)) else (routes[r.name := ConvertRoute(r)], def)
  }

  method ConvertRoutesLoop(rs: seq<ApiRoute>) returns (routes: map<string, Route>, def: Route)
    ensures (routes, def) == ConvertRoutes(rs)
  {
    def := DEFAULT_ROUTE;
    routes := map[];
    for i := 0 to |rs|
      invariant (routes, def) == ConvertRoutes(rs[..i])
    {
      assert rs[..i + 1][..i] == rs[..i];
      var r := ConvertRouteLoop(rs[i]);
      if rs[i].name == "" {
        def := r;
      } else {
        routes := routes[rs[i].name := r];
      }
    }
    assert rs[..|rs|] == rs;
  }

  method ConvertRouteLoop(r: ApiRoute) returns (route: Route)
    ensures route == ConvertRoute(r)
  {
    var headers := [];
    for i := 0 to |r.headers|
      invariant |headers| == i && forall j :: 0 <= j < i ==> headers[j] == ConvertHeader(r.headers[j])
    {
      headers := headers + [Header(r.headers[i].name, r.headers[i].value, r.headers[i].roles)];
    }
    route := Route(!r.disableEnforcement, r.roles, headers);
  }

  function ConvertOidc(
      ap: Resource, secret: Option<map<string, string>>, mappings: seq<RoleMapping>, parse: UrlParser): Option<Oidc>
  {
    match parse(ap.callbackPath)
    case None => None
    case Some(cb) =>
      if secret.None? then Some(Oidc(mappings, "", "", "", cb))
      else
        var data := secret.value;
        if ap.keys.clientId in data && ap.keys.clientSecret in data && ap.keys.tokenSecret in data then
          Some(Oidc(mappings, data[ap.keys.clientId], data[ap.keys.clientSecret], data[ap.keys.tokenSecret], cb))
        else None
  }

  function PolicyName(ap: Resource): string {
    ap.namespace + "/" + ap.name
  }

  function Convert(
      ap: Resource, secret: Option<map<string, string>>, mappings: seq<RoleMapping>, parse: UrlParser): Option<Policy>
  {
    match ConvertOidc(ap, secret, mappings, parse)
    case None => None
    case Some(oidc) =>
      var (routes, def) := ConvertRoutes(ap.routes);
      Some(Policy(PolicyName(ap), oidc, def, routes, ap.virtualHosts))
  }

  /**
    Whatever the worker can convert, with credentials and provider, the other controller can
    convert without them, and both agree on everything that ends up in Envoy.
   */
  lemma ConversionsAgree(ap: Resource, secret: map<string, string>, mappings: seq<RoleMapping>, parse: UrlParser)
    ensures Convert(ap, Some(secret), mappings, parse).Some? <==>
            Convert(ap, None, [], parse).Some? &&
            {ap.keys.clientId, ap.keys.clientSecret, ap.keys.tokenSecret} <= secret.Keys
    ensures Convert(ap, Some(secret), mappings, parse).Some? ==>
            Convert(ap, None, [], parse).value ==
            Convert(ap, Some(secret), mappings, parse).value.(
              oidc := Oidc([], "", "", "", parse(ap.callbackPath).value))
  {}

  // ---------------------------------------------------------------------------
  // Which route a name stands for

  /** The last route of that name, if any. */
  function LastNamed(rs: seq<ApiRoute>, name: string): Option<ApiRoute> {
    if rs == [] then None
    else if rs[|rs| - 1].name == name then Some(rs[|rs| - 1])
    else LastNamed(rs[..|rs| - 1], name)
  }

  /** The settings that the resource gives for a route name; "" is the default route. */
  function Meant(ap: Resource, name: string): Option<Route> {
    match LastNamed(ap.routes, name)
    case Some(r) => Some(ConvertRoute(r))
    case None => if name == "" then Some(DEFAULT_ROUTE) else None
  }

  lemma {:induction false} ConvertRoutesExact(rs: seq<ApiRoute>, name: string)
    ensures var (routes, def) := ConvertRoutes(rs);
      && (name in routes <==> name != "" && LastNamed(rs, name).Some?)
      && (name in routes ==> routes[name] == ConvertRoute(LastNamed(rs, name).value))
      && def == (match LastNamed(rs, "") case Some(r) => ConvertRoute(r) case None => DEFAULT_ROUTE)
  {
    if rs != [] {
      ConvertRoutesExact(rs[..|rs| - 1], name);
    }
  }

  /** That is the settings of the last entry of that name. */
  lemma {:induction false} LastNamedExact(rs: seq<ApiRoute>, name: string)
    ensures match LastNamed(rs, name)
            case Some(r) => exists i :: 0 <= i < |rs| && rs[i] == r && r.name == name &&
                              forall j :: i < j < |rs| ==> rs[j].name != name
            case None => forall i :: 0 <= i < |rs| ==> rs[i].name != name
  {
    var n := |rs| - 1;
    if n >= 0 && rs[n].name != name {
      LastNamedExact(rs[..n], name);
      if LastNamed(rs, name).Some? {
        var i :| 0 <= i < n && rs[..n][i] == LastNamed(rs, name).value && rs[..n][i].name == name &&
                 forall j :: i < j < n ==> rs[..n][j].name != name;
        assert rs[i] == LastNamed(rs, name).value;
        assert forall j :: i < j < n ==> rs[j] == rs[..n][j];
      } else {
        assert forall i :: 0 <= i < n ==> rs[i] == rs[..n][i];
      }
    }
  }

  /** `route` is what the entry `r` writes: enforced unless switched off, with its roles and headers in order. */
  predicate Writes(r: ApiRoute, route: Route) {
    && route.enableAuthz == !r.disableEnforcement && route.roles == r.roles
    && |route.headers| == |r.headers|
    && forall i :: 0 <= i < |r.headers| ==>
         && route.headers[i].name == r.headers[i].name && route.headers[i].value == r.headers[i].value
         && route.headers[i].roles == r.headers[i].roles
  }

  /**
    `route` is what the resource means by `name`: its last entry of that name, and without one
    for "" an enforced route without roles and headers.
   */
  predicate Means(ap: Resource, name: string, route: Route) {
    match LastNamed(ap.routes, name)
    case Some(r) => Writes(r, route)
    case None => name == "" && route == Route(true, [], [])
  }

  lemma WritesExact(r: ApiRoute, route: Route)
    ensures Writes(r, route) <==> route == ConvertRoute(r)
  {
    if Writes(r, route) {
      assert forall i :: 0 <= i < |r.headers| ==> route.headers[i] == ConvertHeader(r.headers[i]);
      assert route.headers == ConvertRoute(r).headers;
    }
  }

  lemma MeansExact(ap: Resource, name: string, route: Route)
    ensures Means(ap, name, route) <==> Meant(ap, name) == Some(route)
  {
    if LastNamed(ap.routes, name).Some? {
      WritesExact(LastNamed(ap.routes, name).value, route);
    }
  }

  /** `oidc` has the parsed callback, the mappings, and the credentials of `secret` under the resource's three keys. */
  predicate HasCredentials(
      ap: Resource, secret: Option<map<string, string>>, mappings: seq<RoleMapping>, parse: UrlParser, oidc: Oidc)
  {
    && parse(ap.callbackPath) == Some(oidc.callback) && oidc.mappings == mappings
    && match secret
       case None => oidc.clientId == oidc.clientSecret == oidc.tokenSecret == ""
       case Some(data) =>
         && ap.keys.clientId in data && oidc.clientId == data[ap.keys.clientId]
         && ap.keys.clientSecret in data && oidc.clientSecret == data[ap.keys.clientSecret]
         && ap.keys.tokenSecret in data && oidc.tokenSecret == data[ap.keys.tokenSecret]
  }

  /** `pol` is what the resource says, field by field. */
  ghost predicate Says(
      ap: Resource, secret: Option<map<string, string>>, mappings: seq<RoleMapping>, parse: UrlParser, pol: Policy)
  {
    && pol.name == ap.namespace + "/" + ap.name && pol.virtualHosts == ap.virtualHosts
    && HasCredentials(ap, secret, mappings, parse, pol.oidc)
    && Means(ap, "", pol.default)
    && (forall name :: name in pol.routes <==> name != "" && LastNamed(ap.routes, name).Some?)
    && forall name :: name in pol.routes ==> Means(ap, name, pol.routes[name])
  }

  /** The callback can be parsed, and the secret has all three keys. */
  predicate Convertible(ap: Resource, secret: Option<map<string, string>>, parse: UrlParser) {
    && parse(ap.callbackPath).Some?
    && (secret.Some? ==> {ap.keys.clientId, ap.keys.clientSecret, ap.keys.tokenSecret} <= secret.value.Keys)
  }

  /** Conversion succeeds exactly for a convertible resource, and then yields what the resource says. */
  lemma ConvertExact(
      ap: Resource, secret: Option<map<string, string>>, mappings: seq<RoleMapping>, parse: UrlParser)
    ensures Convert(ap, secret, mappings, parse).Some? <==> Convertible(ap, secret, parse)
    ensures Convert(ap, secret, mappings, parse).Some? ==>
            Says(ap, secret, mappings, parse, Convert(ap, secret, mappings, parse).value)
  {
    if Convert(ap, secret, mappings, parse).Some? {
      var pol := Convert(ap, secret, mappings, parse).value;
      forall name
        ensures name in pol.routes <==> name != "" && LastNamed(ap.routes, name).Some?
        ensures name in pol.routes ==> Means(ap, name, pol.routes[name])
      {
        ConvertRoutesExact(ap.routes, name);
        if name in pol.routes {
          MeansExact(ap, name, pol.routes[name]);
        }
      }
      ConvertRoutesExact(ap.routes, "");
      MeansExact(ap, "", pol.default);
    }
  }

  /** A route is enforced exactly when the last entry of its name does not switch enforcement off. */
  lemma EnforcedExact(ap: Resource, name: string)
    requires Meant(ap, name).Some?
    ensures Meant(ap, name).value.enableAuthz <==>
            !(LastNamed(ap.routes, name).Some? && LastNamed(ap.routes, name).value.disableEnforcement)
  {}

  // ---------------------------------------------------------------------------
  // The policy store and the lookup of a request

  datatype Resolution = UnknownPolicy | UnknownRoute | Resolved(policy: Policy, route: Route)

  function Meta(metadata: map<string, string>, key: string): string {
    if key in metadata then metadata[key] else ""
  }

  /** `newRequest`, as far as it looks up the policy and the route. */
  function Resolve(store: map<string, Policy>, metadata: map<string, string>): Resolution {
    var name, route := Meta(metadata, NAME_KEY), Meta(metadata, ROUTE_KEY);
    if name !in store then UnknownPolicy
    else if route == "" then Resolved(store[name], store[name].default)
    else if route !in store[name].routes then UnknownRoute
    else Resolved(store[name], store[name].routes[route])
  }

  /** A resource with the credentials and provider that the worker found for it. */
  datatype Applied = Applied(ap: Resource, secret: map<string, string>, mappings: seq<RoleMapping>)

  function WorkerPolicy(a: Applied, parse: UrlParser): Option<Policy> {
    Convert(a.ap, Some(a.secret), a.mappings, parse)
  }

  /** The store after the worker has reconciled these resources; what does not convert is skipped. */
  function StoreAll(applied: seq<Applied>, parse: UrlParser): map<string, Policy> {
    if applied == [] then map[]
    else
      var rest := StoreAll(applied[..|applied| - 1], parse);
      match WorkerPolicy(applied[|applied| - 1], parse)
      case Some(p) => rest[p.name := p]
      case None => rest
  }

  /** A namespace is a DNS label and has no slash. */
  predicate Namespaced(applied: seq<Applied>) {
    forall i :: 0 <= i < |applied| ==> '/' !in applied[i].ap.namespace
  }

  predicate SameResource(a: Resource, b: Resource) {
    a.namespace == b.namespace && a.name == b.name
  }

  /** The `i`-th reconcile converted, and no later one of the same resource did. */
  predicate Current(applied: seq<Applied>, parse: UrlParser, i: nat)
    requires i < |applied|
  {
    && Convertible(applied[i].ap, Some(applied[i].secret), parse)
    && forall j :: i < j < |applied| && SameResource(applied[j].ap, applied[i].ap) ==>
         !Convertible(applied[j].ap, Some(applied[j].secret), parse)
  }

  /** "namespace/name" identifies a resource. */
  lemma PolicyNameInjective(a: Resource, b: Resource)
    requires '/' !in a.namespace && '/' !in b.namespace
    ensures PolicyName(a) == PolicyName(b) <==> SameResource(a, b)
  {
    var s := PolicyName(a);
    if s == PolicyName(b) {
      assert s[|a.namespace|] == '/' && s[|b.namespace|] == '/';
      assert forall k :: 0 <= k < |a.namespace| ==> s[k] == a.namespace[k];
      assert forall k :: 0 <= k < |b.namespace| ==> s[k] == b.namespace[k];
      assert |a.namespace| == |b.namespace|;
      assert a.namespace == s[..|a.namespace|] == b.namespace;
      assert a.name == s[|a.namespace| + 1..] == b.name;
    }
  }

  lemma StoreStep(applied: seq<Applied>, parse: UrlParser, key: string)
    requires applied != []
    ensures var last := applied[|applied| - 1];
      key in StoreAll(applied, parse) &&
      (PolicyName(last.ap) != key || !Convertible(last.ap, Some(last.secret), parse)) ==>
        var rest := StoreAll(applied[..|applied| - 1], parse);
        key in rest && StoreAll(applied, parse)[key] == rest[key]
    ensures var last := applied[|applied| - 1];
      (PolicyName(last.ap) == key && Convertible(last.ap, Some(last.secret), parse)) ==>
        key in StoreAll(applied, parse) && Some(StoreAll(applied, parse)[key]) == WorkerPolicy(last, parse)
    ensures key in StoreAll(applied[..|applied| - 1], parse) ==> key in StoreAll(applied, parse)
  {}

  lemma {:induction false} StoredIsConverted(applied: seq<Applied>, parse: UrlParser, i: nat)
    requires Namespaced(applied) && i < |applied| && Current(applied, parse, i)
    ensures PolicyName(applied[i].ap) in StoreAll(applied, parse)
    ensures Some(StoreAll(applied, parse)[PolicyName(applied[i].ap)]) == WorkerPolicy(applied[i], parse)
  {
    var n := |applied| - 1;
    StoreStep(applied, parse, PolicyName(applied[i].ap));
    if i < n {
      assert applied[..n][i] == applied[i];
      StoredIsConverted(applied[..n], parse, i);
      PolicyNameInjective(applied[n].ap, applied[i].ap);
    }
  }

  /** The store has of each resource what its last convertible version says: a later one that is not is skipped. */
  lemma StoreHasCurrent(applied: seq<Applied>, parse: UrlParser, i: nat)
    requires Namespaced(applied) && i < |applied| && Current(applied, parse, i)
    ensures var ap, key := applied[i].ap, applied[i].ap.namespace + "/" + applied[i].ap.name;
      && key in StoreAll(applied, parse)
      && Says(ap, Some(applied[i].secret), applied[i].mappings, parse, StoreAll(applied, parse)[key])
  {
    StoredIsConverted(applied, parse, i);
    ConvertExact(applied[i].ap, Some(applied[i].secret), applied[i].mappings, parse);
  }

  /**
    Handing back the name of a resource and one of its routes, or none, finds the policy as its
    current version says and the route it means; a route it does not have is an error.
   */
  lemma ResolveFindsMeant(applied: seq<Applied>, parse: UrlParser, i: nat, metadata: map<string, string>)
    requires Namespaced(applied) && i < |applied| && Current(applied, parse, i)
    requires "accessPolicy" in metadata
    requires metadata["accessPolicy"] == applied[i].ap.namespace + "/" + applied[i].ap.name
    ensures var a, name := applied[i], if "route" in metadata then metadata["route"] else "";
      match Resolve(StoreAll(applied, parse), metadata)
      case UnknownPolicy => false
      case UnknownRoute => name != "" && LastNamed(a.ap.routes, name).None?
      case Resolved(pol, route) => Says(a.ap, Some(a.secret), a.mappings, parse, pol) && Means(a.ap, name, route)
  {
    StoreHasCurrent(applied, parse, i);
  }

  /** A policy is known by exactly the names of the resources that converted. */
  lemma {:induction false} KnownExact(applied: seq<Applied>, parse: UrlParser, key: string)
    ensures key in StoreAll(applied, parse) <==>
            exists i :: 0 <= i < |applied| && key == applied[i].ap.namespace + "/" + applied[i].ap.name &&
              Convertible(applied[i].ap, Some(applied[i].secret), parse)
  {
    var n := |applied| - 1;
    if n >= 0 {
      KnownExact(applied[..n], parse, key);
      ConvertExact(applied[n].ap, Some(applied[n].secret), applied[n].mappings, parse);
      assert forall i :: 0 <= i < n ==> applied[..n][i] == applied[i];
      if key in StoreAll(applied[..n], parse) {
        var i :| 0 <= i < n && key == applied[..n][i].ap.namespace + "/" + applied[..n][i].ap.name &&
                 Convertible(applied[..n][i].ap, Some(applied[..n][i].secret), parse);
        assert applied[i] == applied[..n][i];
      }
    }
  }

  /** Without a known name a request has no policy. */
  lemma UnknownExact(store: map<string, Policy>, metadata: map<string, string>)
    ensures Resolve(store, metadata).UnknownPolicy? <==>
            (if "accessPolicy" in metadata then metadata["accessPolicy"] else "") !in store
  {}

  lemma {:induction false} StoreKeysHaveSlash(applied: seq<Applied>, parse: UrlParser, key: string)
    requires key in StoreAll(applied, parse)
    ensures '/' in key
  {
    var n := |applied| - 1;
    if key in StoreAll(applied[..n], parse) {
      StoreKeysHaveSlash(applied[..n], parse, key);
    } else {
      var ap := applied[n].ap;
      assert PolicyName(ap)[|ap.namespace|] == '/';
    }
  }

  /** The worker deletes by the bare name, under which nothing is stored: deleting has no effect. */
  lemma DeletingByNameMisses(applied: seq<Applied>, parse: UrlParser, name: string)
    requires '/' !in name
    ensures StoreAll(applied, parse) - {name} == StoreAll(applied, parse)
  {
    if name in StoreAll(applied, parse) {
      StoreKeysHaveSlash(applied, parse, name);
    }
  }
}

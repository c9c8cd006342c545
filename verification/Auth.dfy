/**
  The authorization server (auth/check.go, jwt.go): the answer to one request and what it
  does to the session store. Signing and hashing are given by `Crypto`, everything outside
  the process by `World`.
 */
module Auth {
  import opened Options
  import opened Sessions
  import opened Replication
  import opened Policies
  import R = Roles

  // ---------------------------------------------------------------------------
  // Tokens

  datatype Claims = Claims(
    subject: string, roles: map<string, seq<string>>,
    notBefore: Option<Time>, expiry: Option<Time>, issuedAt: Option<Time>)

  /** What a token of ours says: the path to return to after login, or who is logged in. */
  datatype Payload = StatePayload(path: string) | BearerPayload(claims: Claims)

  /** Reading a payload as the other kind finds none of its fields. */
  function AsBearer(p: Payload): Claims {
    match p
    case StatePayload(_) => Claims("", map[], None, None, None)
    case BearerPayload(c) => c
  }

  function AsPath(p: Payload): string {
    match p
    case StatePayload(path) => path
    case BearerPayload(_) => ""
  }

  datatype Crypto = Crypto(
    hash: string -> string,
    sign: (string, Payload) -> Option<string>,
    decode: string -> Option<Payload>,
    verifies: (string, string) -> bool)

  /** The hash is injective, and a signed token is not empty and decodes and verifies under its own key. */
  ghost predicate Lawful(k: Crypto) {
    && (forall t, u :: k.hash(t) == k.hash(u) ==> t == u)
    && (forall s, p :: k.sign(s, p).Some? ==>
          && k.sign(s, p).value != ""
          && k.decode(k.sign(s, p).value) == Some(p) && k.verifies(s, k.sign(s, p).value))
  }

  /** A signature is accepted only under the key it was made with. */
  ghost predicate KeyBound(k: Crypto) {
    forall s, s', p :: k.sign(s, p).Some? && k.verifies(s', k.sign(s, p).value) ==> s == s'
  }

  function ParseToken(k: Crypto, secret: string, tok: string): Option<Payload> {
    if k.verifies(secret, tok) then k.decode(tok) else None
  }

  /** Validation of the registered claims at `now` without leeway. */
  predicate ClaimsExpired(c: Claims, now: Time) {
    || (c.notBefore.Some? && now < c.notBefore.value)
    || (c.expiry.Some? && now > c.expiry.value)
    || (c.issuedAt.Some? && now < c.issuedAt.value)
  }

  // ---------------------------------------------------------------------------
  // Requests and the outside world

  /** What the provider hands out; an answer need not contain an ID token. */
  datatype OAuthToken = OAuthToken(
    accessToken: string, refreshToken: string, idToken: Option<string>, expiry: Option<Time>)

  /**
    `claims` verifies a token against the provider's keys, which may also fail for want of the
    keys; `refreshExpiry` reads a refresh token unverified.
   */
  datatype World = World(
    now: Time,
    exchange: string -> Option<OAuthToken>,
    refresh: string -> Option<OAuthToken>,
    claims: string -> Option<R.Json>,
    refreshExpiry: string -> Option<Time>,
    authUrl: string -> string,
    cookie: string -> string)

  datatype Request = Request(
    path: string, uri: string, query: map<string, seq<string>>,
    cookies: seq<(string, string)>, fetchMode: string, policy: Policy, route: Route)

  datatype Response = Response(status: nat, headers: map<string, string>)

  const OK := 200
  const SEE_OTHER := 303
  const TEMPORARY_REDIRECT := 307
  const BAD_REQUEST := 400
  const FORBIDDEN := 403
  const INTERNAL_SERVER_ERROR := 500

  const BEARER_COOKIE := "bearer"

  function Bearer(cookies: seq<(string, string)>): string {
    if cookies == [] then ""
    else if cookies[0].0 == BEARER_COOKIE then cookies[0].1
    else Bearer(cookies[1..])
  }

  // ---------------------------------------------------------------------------
  // The location that is logged for a request

  function Values(query: map<string, seq<string>>, key: string): seq<string> {
    if key in query then query[key] else []
  }

  /** The first `n` values replaced one after the other; nothing if that runs out of range. */
  function Dash(values: seq<string>, n: nat): Option<seq<string>>
    decreases n
  {
    if n == 0 then Some(values)
    else
      match Dash(values, n - 1)
      case None => None
      case Some(vs) => if n - 1 < |vs| then Some(vs[n - 1 := "-"]) else None
  }

  /**
    The query with its state values replaced. As the code stands the loop over the code values
    writes state values too, and panics when there are not as many.
   */
  function Location(query: map<string, seq<string>>): Option<map<string, seq<string>>> {
    match Dash(Values(query, "state"), |Values(query, "state")|)
    case None => None
    case Some(vs) =>
      match Dash(vs, |Values(query, "code")|)
      case None => None
      case Some(ws) => Some(if "state" in query then query["state" := ws] else query)
  }

  lemma {:induction false} DashExact(values: seq<string>, n: nat)
    ensures Dash(values, n).Some? <==> n <= |values|
    ensures Dash(values, n).Some? ==>
      && |Dash(values, n).value| == |values|
      && forall i :: 0 <= i < |values| ==> Dash(values, n).value[i] == if i < n then "-" else values[i]
    decreases n
  {
    if n > 0 {
      DashExact(values, n - 1);
    }
  }

  /** More code values than state values; a missing key has none. */
  predicate MoreCodes(query: map<string, seq<string>>) {
    |Values(query, "code")| > |Values(query, "state")|
  }

  /**
    Logging the location panics exactly with more code values than state values. Otherwise every
    state value is replaced, and everything else, the codes too, is logged as it is.
   */
  lemma LocationExact(query: map<string, seq<string>>)
    ensures Location(query).None? <==> MoreCodes(query)
    ensures Location(query).Some? ==>
      && Location(query).value.Keys == query.Keys
      && (forall key :: key in query && key != "state" ==> Location(query).value[key] == query[key])
      && ("state" in query ==>
            && |Location(query).value["state"]| == |query["state"]|
            && forall v :: v in Location(query).value["state"] ==> v == "-")
  {
    var states := Values(query, "state");
    DashExact(states, |states|);
    DashExact(Dash(states, |states|).value, |Values(query, "code")|);
  }

  // ---------------------------------------------------------------------------
  // The answer, as a value

  /** A session that was minted: the token, the secret it is signed with, and where its roles come from. */
  datatype Mint = Mint(
    secret: string, claims: Claims, token: string, session: Session,
    mappings: seq<R.RoleMapping>, at: R.Json, idt: R.Json)

  /** `sent` is what goes out to the peers. */
  datatype Outcome = Outcome(res: Response, store: Store, latest: Vector, mint: Option<Mint>, sent: Option<Stamped>)

  /** `Crash` is a panic, which nothing recovers from: the process ends. */
  datatype Checked = Crash | Done(out: Outcome)

  function Answer(status: nat, s: Store, v: Vector): Checked {
    Done(Outcome(Response(status, map[]), s, v, None, None))
  }

  /** What the provider's tokens say, read one after the other; a missing ID token is a panic. */
  datatype TokenData = Rejected | NoIdToken | TokenData(at: R.Json, idt: R.Json, expiry: Time)

  function Extract(w: World, tok: OAuthToken): TokenData {
    if w.claims(tok.accessToken).None? || w.refreshExpiry(tok.refreshToken).None? then Rejected
    else if tok.idToken.None? then NoIdToken
    else
      match w.claims(tok.idToken.value)
      case None => Rejected
      case Some(idt) => TokenData(w.claims(tok.accessToken).value, idt, w.refreshExpiry(tok.refreshToken).value)
  }

  function Subject(idt: R.Json): string {
    if idt.Obj? && "sub" in idt.fields && idt.fields["sub"].Str? then idt.fields["sub"].s else ""
  }

  /** The mint that `setToken` makes, if the provider's tokens can be used and signing works. */
  function NewMint(k: Crypto, w: World, req: Request, tok: OAuthToken): Option<Mint> {
    match Extract(w, tok)
    case TokenData(at, idt, expiry) =>
      (match R.CollectRoles(req.policy.oidc.mappings, at, idt)
       case Err => None
       case Ok(roles) =>
         var claims := Claims(Subject(idt), roles, None, tok.expiry, None);
         match k.sign(req.policy.oidc.tokenSecret, BearerPayload(claims))
         case None => None
         case Some(t) =>
           Some(Mint(req.policy.oidc.tokenSecret, claims, t,
                     Session(k.hash(t), tok.refreshToken, expiry),
                     req.policy.oidc.mappings, at, idt)))
    case _ => None
  }

  /** The session the caller is left with when `Set` refuses: an empty one, not stamped. */
  const NO_SESSION: Stamped := Stamped(Session("", "", 0), ZERO_STAMP)

  function SetToken(
      k: Crypto, w: World, s: Store, v: Vector, req: Request, tok: OAuthToken, uri: string): Checked
  {
    if Extract(w, tok).NoIdToken? then Crash
    else
      match NewMint(k, w, req, tok)
      case None => Answer(INTERNAL_SERVER_ERROR, s, v)
      case Some(m) =>
        var (t, r) := Put(s, Stamped(m.session, ZERO_STAMP));
        var x := if r.Some? then r.value else NO_SESSION;
        var cookie := map["set-cookie" := w.cookie(m.token)];
        var res := if uri == "" then Response(TEMPORARY_REDIRECT, cookie["location" := req.uri])
                   else Response(SEE_OTHER, cookie["location" := uri]);
        Done(Outcome(res, t, Raise(v, Stamp(s.id, x.stamp.serial)), if r.Some? then Some(m) else None, Some(x)))
  }

  function StartOidc(k: Crypto, w: World, req: Request): Response {
    if req.fetchMode !in ["", "navigate", "nested-navigate"] then Response(FORBIDDEN, map[])
    else
      match k.sign(req.policy.oidc.tokenSecret, StatePayload(req.path))
      case None => Response(INTERNAL_SERVER_ERROR, map[])
      case Some(t) => Response(SEE_OTHER, map["location" := w.authUrl(t)])
  }

  function FinishOidc(k: Crypto, w: World, s: Store, v: Vector, req: Request): Checked {
    if "state" !in req.query || |req.query["state"]| != 1 || "code" !in req.query || |req.query["code"]| != 1 then
      Answer(BAD_REQUEST, s, v)
    else
      match ParseToken(k, req.policy.oidc.tokenSecret, req.query["state"][0])
      case None => Answer(BAD_REQUEST, s, v)
      case Some(p) =>
        match w.exchange(req.query["code"][0])
        case None => Answer(FORBIDDEN, s, v)
        case Some(tok) => SetToken(k, w, s, v, req, tok, AsPath(p))
  }

  function UpdateToken(k: Crypto, w: World, s: Store, v: Vector, req: Request, sess: Session): Checked {
    match w.refresh(sess.refreshToken)
    case None => Answer(FORBIDDEN, s, v)
    case Some(tok) => SetToken(k, w, s, v, req, tok, "")
  }

  /** The claims and session of a request whose bearer token verifies and is in the store. */
  function Authenticate(k: Crypto, s: Store, req: Request): Option<(Claims, Session)> {
    var tok := Bearer(req.cookies);
    if tok == "" then None
    else
      match ParseToken(k, req.policy.oidc.tokenSecret, tok)
      case None => None
      case Some(p) =>
        match Lookup(s, k.hash(tok))
        case None => None
        case Some(sess) => Some((AsBearer(p), sess))
  }

  /** The headers a caller with these roles gets; a later header of the same name wins. */
  ghost function GrantedHeaders(hs: seq<Header>, roles: map<string, seq<string>>): map<string, string> {
    if hs == [] then map[]
    else
      var rest := GrantedHeaders(hs[..|hs| - 1], roles);
      var h := hs[|hs| - 1];
      if R.Covers(h.roles, roles) then rest[h.name := h.value] else rest
  }

  ghost function Authorize(req: Request, c: Claims): Response {
    if !R.Covers(req.route.roles, c.roles) then Response(FORBIDDEN, map[])
    else Response(OK, GrantedHeaders(req.route.headers, c.roles))
  }

  ghost function Check(k: Crypto, w: World, s: Store, v: Vector, req: Request): Checked {
    if Location(req.query).None? then Crash
    else if req.path == req.policy.oidc.callback then FinishOidc(k, w, s, v, req)
    else
      match Authenticate(k, s, req)
      case None => Done(Outcome(StartOidc(k, w, req), s, v, None, None))
      case Some((claims, sess)) =>
        if ClaimsExpired(claims, w.now) then UpdateToken(k, w, s, v, req, sess)
        else Done(Outcome(Authorize(req, claims), s, v, None, None))
  }

  // ---------------------------------------------------------------------------
  // Who asks

  /** The first cookie named "bearer" is the `i`-th, with that value. */
  predicate BearerAt(cookies: seq<(string, string)>, i: int, value: string) {
    && 0 <= i < |cookies| && cookies[i] == ("bearer", value)
    && forall j :: 0 <= j < i ==> cookies[j].0 != "bearer"
  }

  predicate NoBearer(cookies: seq<(string, string)>) {
    forall j :: 0 <= j < |cookies| ==> cookies[j].0 != "bearer"
  }

  /** The value of the first cookie named "bearer", and "" without one. */
  ghost predicate FirstBearer(cookies: seq<(string, string)>, value: string) {
    (exists i :: BearerAt(cookies, i, value)) || (NoBearer(cookies) && value == "")
  }

  /** A cookie of another name in front changes nothing. */
  lemma OtherCookie(cookies: seq<(string, string)>, value: string)
    requires cookies != [] && cookies[0].0 != "bearer"
    ensures FirstBearer(cookies, value) <==> FirstBearer(cookies[1..], value)
  {
    var rest := cookies[1..];
    assert forall j :: 0 <= j < |rest| ==> rest[j] == cookies[j + 1];
    if i :| BearerAt(cookies, i, value) {
      assert BearerAt(rest, i - 1, value);
    }
    if i :| BearerAt(rest, i, value) {
      assert forall j :: 1 <= j < i + 1 ==> cookies[j] == rest[j - 1];
      assert BearerAt(cookies, i + 1, value);
    }
    assert NoBearer(rest) ==> forall j :: 1 <= j < |cookies| ==> cookies[j] == rest[j - 1];
  }

  lemma {:induction false} BearerExact(cookies: seq<(string, string)>, value: string)
    ensures FirstBearer(cookies, value) <==> value == Bearer(cookies)
  {
    if cookies != [] {
      if cookies[0].0 != "bearer" {
        BearerExact(cookies[1..], value);
        OtherCookie(cookies, value);
      } else {
        assert BearerAt(cookies, 0, cookies[0].1);
      }
    }
  }

  /** The claims that a payload is read as: a state token has none of them. */
  predicate ReadAs(p: Payload, c: Claims) {
    p == BearerPayload(c) || (p.StatePayload? && c == Claims("", map[], None, None, None))
  }

  /** The request carries `tok`, which verifies, says `c` and is in the store with `sess`. */
  ghost predicate Known(k: Crypto, s: Store, req: Request, tok: string, c: Claims, sess: Session) {
    && FirstBearer(req.cookies, tok) && tok != ""
    && k.verifies(req.policy.oidc.tokenSecret, tok)
    && k.decode(tok).Some? && ReadAs(k.decode(tok).value, c)
    && Lookup(s, k.hash(tok)) == Some(sess)
  }

  lemma AuthenticateExact(k: Crypto, s: Store, req: Request)
    ensures forall c, sess :: Authenticate(k, s, req) == Some((c, sess)) <==>
              exists tok :: Known(k, s, req, tok, c, sess)
  {
    forall tok ensures FirstBearer(req.cookies, tok) <==> tok == Bearer(req.cookies) {
      BearerExact(req.cookies, tok);
    }
    forall c, sess ensures Authenticate(k, s, req) == Some((c, sess)) <==>
              exists tok :: Known(k, s, req, tok, c, sess)
    {
      if Authenticate(k, s, req) == Some((c, sess)) {
        assert Known(k, s, req, Bearer(req.cookies), c, sess);
      }
    }
  }

  /** Valid at `now`: not before, not after, and not issued in the future, each if it is said at all. */
  predicate ValidAt(c: Claims, now: Time) {
    && (c.notBefore.Some? ==> c.notBefore.value <= now)
    && (c.expiry.Some? ==> now <= c.expiry.value)
    && (c.issuedAt.Some? ==> c.issuedAt.value <= now)
  }

  lemma ValidExact(c: Claims, now: Time)
    ensures ClaimsExpired(c, now) <==> !ValidAt(c, now)
  {}

  // ---------------------------------------------------------------------------
  // Where a mint comes from

  /** The request obtains `tok` from the provider: by a login's code, or for an expired token in the store. */
  ghost predicate Obtains(k: Crypto, w: World, s: Store, req: Request, tok: OAuthToken) {
    if req.path == req.policy.oidc.callback then
      exists state, code ::
        && Values(req.query, "state") == [state] && Values(req.query, "code") == [code]
        && k.verifies(req.policy.oidc.tokenSecret, state) && k.decode(state).Some?
        && w.exchange(code) == Some(tok)
    else
      exists bearer, c, sess ::
        && Known(k, s, req, bearer, c, sess) && !ValidAt(c, w.now)
        && w.refresh(sess.refreshToken) == Some(tok)
  }

  /** The subject of an ID token: its "sub" if that is a string. */
  predicate SubjectOf(idt: R.Json, subject: string) {
    if idt.Obj? && "sub" in idt.fields && idt.fields["sub"].Str? then idt.fields["sub"] == R.Str(subject)
    else subject == ""
  }

  /** `m` is what the policy of the request makes of the provider's answer `tok`. */
  ghost predicate MintOf(k: Crypto, w: World, req: Request, tok: OAuthToken, m: Mint) {
    && m.secret == req.policy.oidc.tokenSecret && m.mappings == req.policy.oidc.mappings
    && w.claims(tok.accessToken) == Some(m.at)
    && tok.idToken.Some? && w.claims(tok.idToken.value) == Some(m.idt)
    && R.CollectRoles(m.mappings, m.at, m.idt) == R.Ok(m.claims.roles)
    && SubjectOf(m.idt, m.claims.subject) && m.claims.expiry == tok.expiry
    && m.claims.notBefore == None && m.claims.issuedAt == None
    && k.sign(m.secret, BearerPayload(m.claims)) == Some(m.token)
    && m.session.id == k.hash(m.token) && m.session.refreshToken == tok.refreshToken
    && w.refreshExpiry(tok.refreshToken) == Some(m.session.expiry)
  }

  lemma NewMintExact(k: Crypto, w: World, req: Request, tok: OAuthToken)
    ensures forall m :: NewMint(k, w, req, tok) == Some(m) <==> MintOf(k, w, req, tok, m)
  {}

  /** Some request obtained the tokens that `m` was made of. */
  ghost predicate Originates(k: Crypto, m: Mint) {
    exists w: World, s: Store, req: Request, tok: OAuthToken ::
      Obtains(k, w, s, req, tok) && MintOf(k, w, req, tok, m)
  }

  /** A mint is a token signed with its secret, a session filed under the token's hash, and roles from the mappings. */
  ghost predicate Signed(k: Crypto, m: Mint) {
    && k.sign(m.secret, BearerPayload(m.claims)) == Some(m.token)
    && m.session.id == k.hash(m.token)
    && R.CollectRoles(m.mappings, m.at, m.idt) == R.Ok(m.claims.roles)
  }

  /** And all of that is what some request obtained from the provider. */
  ghost predicate WellMinted(k: Crypto, m: Mint) {
    Signed(k, m) && Originates(k, m)
  }

  // ---------------------------------------------------------------------------
  // The headers of an OK answer

  ghost predicate Eligible(h: Header, roles: map<string, seq<string>>, name: string) {
    h.name == name && R.Covers(h.roles, roles)
  }

  /** A header name is sent exactly when the caller has the roles of some header of that name. */
  lemma {:induction false} HeaderSentExact(hs: seq<Header>, roles: map<string, seq<string>>, name: string)
    ensures name in GrantedHeaders(hs, roles) <==>
            exists i :: 0 <= i < |hs| && Eligible(hs[i], roles, name)
  {
    if hs != [] {
      var init := hs[..|hs| - 1];
      HeaderSentExact(init, roles, name);
      assert forall i :: 0 <= i < |init| ==> init[i] == hs[i];
      if i :| 0 <= i < |init| && Eligible(init[i], roles, name) {
        assert Eligible(hs[i], roles, name);
      }
      if Eligible(hs[|hs| - 1], roles, name) {
        assert name in GrantedHeaders(hs, roles);
      }
    }
  }

  /** Of several headers of one name that the caller may have, the last one's value is sent. */
  lemma {:induction false} LastEligibleWins(hs: seq<Header>, roles: map<string, seq<string>>, i: nat)
    requires i < |hs| && R.Covers(hs[i].roles, roles)
    requires forall j :: i < j < |hs| ==> !Eligible(hs[j], roles, hs[i].name)
    ensures hs[i].name in GrantedHeaders(hs, roles) && GrantedHeaders(hs, roles)[hs[i].name] == hs[i].value
  {
    var init := hs[..|hs| - 1];
    if i < |init| {
      assert forall j :: 0 <= j < |init| ==> init[j] == hs[j];
      LastEligibleWins(init, roles, i);
      assert !Eligible(hs[|init|], roles, hs[i].name);
    }
  }

  /** The headers of a route that a caller gets: of each name the last one that they have the roles for. */
  ghost predicate HeadersFor(hs: seq<Header>, roles: map<string, seq<string>>, sent: map<string, string>) {
    && (forall name :: name in sent <==> exists i :: 0 <= i < |hs| && Eligible(hs[i], roles, name))
    && forall i :: 0 <= i < |hs| && R.Covers(hs[i].roles, roles) &&
                   (forall j :: i < j < |hs| ==> !Eligible(hs[j], roles, hs[i].name)) ==>
         hs[i].name in sent && sent[hs[i].name] == hs[i].value
  }

  lemma GrantedExact(hs: seq<Header>, roles: map<string, seq<string>>)
    ensures HeadersFor(hs, roles, GrantedHeaders(hs, roles))
  {
    var sent := GrantedHeaders(hs, roles);
    forall name ensures name in sent <==> exists i :: 0 <= i < |hs| && Eligible(hs[i], roles, name) {
      HeaderSentExact(hs, roles, name);
    }
    forall i | 0 <= i < |hs| && R.Covers(hs[i].roles, roles) &&
               forall j :: i < j < |hs| ==> !Eligible(hs[j], roles, hs[i].name)
      ensures hs[i].name in sent && sent[hs[i].name] == hs[i].value
    {
      LastEligibleWins(hs, roles, i);
    }
  }

  // ---------------------------------------------------------------------------
  // What an answer means

  predicate IsOk(c: Checked) {
    c.Done? && c.out.res.status == 200
  }

  /** Nothing but a status: no header, no change, nothing sent. */
  predicate Only(out: Outcome, status: nat, s: Store, v: Vector) {
    out == Outcome(Response(status, map[]), s, v, None, None)
  }

  /** A login is started: on navigation, with a state token for the path, if it can be signed. */
  ghost predicate Starts(k: Crypto, w: World, s: Store, v: Vector, req: Request, out: Outcome) {
    if req.fetchMode != "" && req.fetchMode != "navigate" && req.fetchMode != "nested-navigate" then
      Only(out, 403, s, v)
    else
      match k.sign(req.policy.oidc.tokenSecret, StatePayload(req.path))
      case None => Only(out, 500, s, v)
      case Some(t) => out == Outcome(Response(303, map["location" := w.authUrl(t)]), s, v, None, None)
  }

  /** `m` is set locally, recorded and sent on, and answered with its cookie and the place to go to. */
  predicate SetsMint(w: World, s: Store, v: Vector, req: Request, uri: string, m: Mint, out: Outcome) {
    var (t, r) := Put(s, Stamped(m.session, Stamp("", 0)));
    && out.res == Response(if uri == "" then 307 else 303,
                           map["set-cookie" := w.cookie(m.token), "location" := if uri == "" then req.uri else uri])
    && out.store == t
    && match r
       case Some(x) => out.mint == Some(m) && out.sent == r && out.latest == Raise(v, Stamp(s.id, x.stamp.serial))
       // A refused session is not noticed: an empty one is recorded, without effect, and sent.
       case None => out.mint == None && out.sent == Some(Stamped(Session("", "", 0), Stamp("", 0))) && out.latest == v
  }

  /** `tok` is turned into a session if it can be. */
  ghost predicate Sets(
      k: Crypto, w: World, s: Store, v: Vector, req: Request, tok: OAuthToken, uri: string, out: Outcome)
  {
    && (forall m :: MintOf(k, w, req, tok, m) ==> SetsMint(w, s, v, req, uri, m, out))
    && ((forall m :: !MintOf(k, w, req, tok, m)) ==> Only(out, 500, s, v))
  }

  /** A login is finished: one state and one code, a state that verifies, and a code that is exchanged. */
  ghost predicate Finishes(k: Crypto, w: World, s: Store, v: Vector, req: Request, out: Outcome) {
    var states, codes := Values(req.query, "state"), Values(req.query, "code");
    if |states| != 1 || |codes| != 1 then Only(out, 400, s, v)
    else if !k.verifies(req.policy.oidc.tokenSecret, states[0]) || k.decode(states[0]).None? then Only(out, 400, s, v)
    else if w.exchange(codes[0]).None? then Only(out, 403, s, v)
    else
      var uri := match k.decode(states[0]).value case StatePayload(path) => path case BearerPayload(_) => "";
      Sets(k, w, s, v, req, w.exchange(codes[0]).value, uri, out)
  }

  /** An expired token is renewed, and the caller sent back to where they are. */
  ghost predicate Renews(k: Crypto, w: World, s: Store, v: Vector, req: Request, sess: Session, out: Outcome) {
    match w.refresh(sess.refreshToken)
    case None => Only(out, 403, s, v)
    case Some(tok) => Sets(k, w, s, v, req, tok, "", out)
  }

  /** Whoever has the roles of the route is let through, with the headers they get. */
  ghost predicate Admits(s: Store, v: Vector, req: Request, c: Claims, out: Outcome) {
    if R.Covers(req.route.roles, c.roles) then
      && out == Outcome(out.res, s, v, None, None) && out.res.status == 200
      && HeadersFor(req.route.headers, c.roles, out.res.headers)
    else Only(out, 403, s, v)
  }

  /** The whole answer, case by case. */
  ghost predicate Answers(k: Crypto, w: World, s: Store, v: Vector, req: Request, out: Outcome) {
    if req.path == req.policy.oidc.callback then Finishes(k, w, s, v, req, out)
    else
      && ((forall tok, c, sess :: !Known(k, s, req, tok, c, sess)) ==> Starts(k, w, s, v, req, out))
      && forall tok, c, sess :: Known(k, s, req, tok, c, sess) ==>
           if ValidAt(c, w.now) then Admits(s, v, req, c, out) else Renews(k, w, s, v, req, sess, out)
  }

  lemma SetTokenExact(k: Crypto, w: World, s: Store, v: Vector, req: Request, tok: OAuthToken, uri: string)
    ensures SetToken(k, w, s, v, req, tok, uri).Crash? <==>
            w.claims(tok.accessToken).Some? && w.refreshExpiry(tok.refreshToken).Some? && tok.idToken.None?
    ensures SetToken(k, w, s, v, req, tok, uri).Done? ==>
            Sets(k, w, s, v, req, tok, uri, SetToken(k, w, s, v, req, tok, uri).out)
  {
    NewMintExact(k, w, req, tok);
  }

  lemma FinishExact(k: Crypto, w: World, s: Store, v: Vector, req: Request)
    ensures FinishOidc(k, w, s, v, req).Done? ==> Finishes(k, w, s, v, req, FinishOidc(k, w, s, v, req).out)
  {
    var states, codes := Values(req.query, "state"), Values(req.query, "code");
    if |states| == 1 && |codes| == 1 && k.verifies(req.policy.oidc.tokenSecret, states[0]) &&
       k.decode(states[0]).Some? && w.exchange(codes[0]).Some?
    {
      SetTokenExact(k, w, s, v, req, w.exchange(codes[0]).value, AsPath(k.decode(states[0]).value));
    }
  }

  lemma UpdateExact(k: Crypto, w: World, s: Store, v: Vector, req: Request, sess: Session)
    ensures var c := UpdateToken(k, w, s, v, req, sess);
      c.Done? ==> Renews(k, w, s, v, req, sess, c.out)
  {
    if w.refresh(sess.refreshToken).Some? {
      SetTokenExact(k, w, s, v, req, w.refresh(sess.refreshToken).value, "");
    }
  }

  /** Every request that does not end the process is answered so. */
  lemma AnswerExact(k: Crypto, w: World, s: Store, v: Vector, req: Request)
    requires Check(k, w, s, v, req).Done?
    ensures Answers(k, w, s, v, req, Check(k, w, s, v, req).out)
  {
    var out := Check(k, w, s, v, req).out;
    if req.path == req.policy.oidc.callback {
      FinishExact(k, w, s, v, req);
    } else {
      AuthenticateExact(k, s, req);
      if Authenticate(k, s, req).None? {
        forall tok, c, sess ensures !Known(k, s, req, tok, c, sess) {
          assert Authenticate(k, s, req) != Some((c, sess));
        }
      } else {
        var (c, sess) := Authenticate(k, s, req).value;
        ValidExact(c, w.now);
        UpdateExact(k, w, s, v, req, sess);
        GrantedExact(req.route.headers, c.roles);
        assert if ValidAt(c, w.now) then Admits(s, v, req, c, out) else Renews(k, w, s, v, req, sess, out);
        forall tok, c', sess' | Known(k, s, req, tok, c', sess') ensures c' == c && sess' == sess {
          assert Authenticate(k, s, req) == Some((c', sess'));
        }
      }
    }
  }

  /**
    The answer is OK exactly for a known, valid token that covers the route's roles, on a request
    whose location can be logged and that is no callback.
   */
  lemma OkExact(k: Crypto, w: World, s: Store, v: Vector, req: Request)
    ensures IsOk(Check(k, w, s, v, req)) <==>
      && !MoreCodes(req.query) && req.path != req.policy.oidc.callback
      && exists tok, c, sess ::
           Known(k, s, req, tok, c, sess) && ValidAt(c, w.now) && R.Covers(req.route.roles, c.roles)
    ensures IsOk(Check(k, w, s, v, req)) ==> Check(k, w, s, v, req).out.store == s
  {
    LocationExact(req.query);
    AuthenticateExact(k, s, req);
    forall tok, c, sess | Known(k, s, req, tok, c, sess) ensures Authenticate(k, s, req) == Some((c, sess)) {
    }
    if Authenticate(k, s, req).Some? {
      var (c, sess) := Authenticate(k, s, req).value;
      ValidExact(c, w.now);
      var tok :| Known(k, s, req, tok, c, sess);
    }
  }

  /** The process ends exactly on more code than state values, and on a usable answer without an ID token. */
  lemma CrashExact(k: Crypto, w: World, s: Store, v: Vector, req: Request)
    ensures Check(k, w, s, v, req).Crash? <==>
      || MoreCodes(req.query)
      || exists tok ::
           && Obtains(k, w, s, req, tok) && tok.idToken.None?
           && w.claims(tok.accessToken).Some? && w.refreshExpiry(tok.refreshToken).Some?
  {
    LocationExact(req.query);
    if !MoreCodes(req.query) {
      if Check(k, w, s, v, req).Crash? {
        var tok := SetIsObtained(k, w, s, v, req);
        ObtainedIsSet(k, w, s, v, req, tok);
      }
      forall tok | Obtains(k, w, s, req, tok)
        ensures Check(k, w, s, v, req).Crash? <==>
                w.claims(tok.accessToken).Some? && w.refreshExpiry(tok.refreshToken).Some? && tok.idToken.None?
      {
        ObtainedIsSet(k, w, s, v, req, tok);
      }
    }
  }

  /** What is obtained is what is set. */
  lemma ObtainedIsSet(k: Crypto, w: World, s: Store, v: Vector, req: Request, tok: OAuthToken)
    requires Obtains(k, w, s, req, tok) && !MoreCodes(req.query)
    ensures Check(k, w, s, v, req).Crash? <==>
            w.claims(tok.accessToken).Some? && w.refreshExpiry(tok.refreshToken).Some? && tok.idToken.None?
    ensures Check(k, w, s, v, req).Done? && Check(k, w, s, v, req).out.mint.Some? ==>
            MintOf(k, w, req, tok, Check(k, w, s, v, req).out.mint.value)
  {
    LocationExact(req.query);
    NewMintExact(k, w, req, tok);
    AuthenticateExact(k, s, req);
    if req.path == req.policy.oidc.callback {
      SetTokenExact(k, w, s, v, req, tok, AsPath(k.decode(req.query["state"][0]).value));
    } else {
      var bearer, c, sess :| Known(k, s, req, bearer, c, sess) && !ValidAt(c, w.now) &&
                             w.refresh(sess.refreshToken) == Some(tok);
      ValidExact(c, w.now);
      assert Authenticate(k, s, req) == Some((c, sess));
      SetTokenExact(k, w, s, v, req, tok, "");
    }
  }

  /** A request that mints, or ends the process although its location can be logged, has obtained tokens. */
  lemma SetIsObtained(k: Crypto, w: World, s: Store, v: Vector, req: Request) returns (tok: OAuthToken)
    requires !MoreCodes(req.query)
    requires var c := Check(k, w, s, v, req); c.Crash? || c.out.mint.Some?
    ensures Obtains(k, w, s, req, tok)
  {
    LocationExact(req.query);
    AuthenticateExact(k, s, req);
    if req.path == req.policy.oidc.callback {
      var states, codes := Values(req.query, "state"), Values(req.query, "code");
      assert states == [states[0]] && codes == [codes[0]];
      tok := w.exchange(codes[0]).value;
    } else {
      var (c, sess) := Authenticate(k, s, req).value;
      ValidExact(c, w.now);
      tok := w.refresh(sess.refreshToken).value;
      var bearer :| Known(k, s, req, bearer, c, sess);
    }
  }

  /**
    Every mint is made of tokens that the request itself obtained: its roles by the policy's
    mappings from the claims of that access and ID token, its subject, expiry, refresh token and
    session expiry from the same answer.
   */
  lemma MintIsObtained(k: Crypto, w: World, s: Store, v: Vector, req: Request)
    requires Check(k, w, s, v, req).Done? && Check(k, w, s, v, req).out.mint.Some?
    ensures exists tok ::
              Obtains(k, w, s, req, tok) && MintOf(k, w, req, tok, Check(k, w, s, v, req).out.mint.value)
    ensures WellMinted(k, Check(k, w, s, v, req).out.mint.value)
  {
    LocationExact(req.query);
    var tok := SetIsObtained(k, w, s, v, req);
    ObtainedIsSet(k, w, s, v, req, tok);
  }

  /** So a code without a state ends the process, whoever asks and whatever for. */
  lemma CodeWithoutStateCrashes(k: Crypto, w: World, s: Store, v: Vector, req: Request, code: string)
    ensures Check(k, w, s, v, req.(query := map["code" := [code]])) == Crash
  {
    LocationExact(map["code" := [code]]);
  }

  // ---------------------------------------------------------------------------
  // What a request does to the store

  /** `out` sets one freshly minted session and pushes it, or leaves the lists and the vector as they are. */
  ghost predicate MintsOrKeeps(k: Crypto, s: Store, v: Vector, secret: string, out: Outcome) {
    match out.mint
    case Some(m) =>
      && WellMinted(k, m) && m.secret == secret
      && (out.store, out.sent) == Put(s, Stamped(m.session, ZERO_STAMP)) && out.sent.Some?
      && out.latest == Raise(v, Stamp(s.id, out.sent.value.stamp.serial))
    case None =>
      && out.latest == v
      && (out.sent.None? ==> out.store == s)
      && (out.sent.Some? ==> exists x: Session :: Put(s, Stamped(x, ZERO_STAMP)) == (out.store, None))
  }

  lemma SetTokenKeeps(
      k: Crypto, w: World, s: Store, v: Vector, req: Request, tok: OAuthToken, uri: string, out: Outcome)
    requires Sets(k, w, s, v, req, tok, uri, out)
    ensures out.mint.None? ==> MintsOrKeeps(k, s, v, req.policy.oidc.tokenSecret, out)
    ensures out.mint.Some? ==>
      && (out.store, out.sent) == Put(s, Stamped(out.mint.value.session, ZERO_STAMP)) && out.sent.Some?
      && out.latest == Raise(v, Stamp(s.id, out.sent.value.stamp.serial))
      && out.mint.value.secret == req.policy.oidc.tokenSecret
  {
    if m :| MintOf(k, w, req, tok, m) {
      assert SetsMint(w, s, v, req, uri, m, out);
      if out.mint.None? {
        assert Put(s, Stamped(m.session, ZERO_STAMP)) == (out.store, None);
      }
    }
  }

  /** A request that is answered changes the store by setting one freshly minted session, or not at all. */
  lemma CheckMintsOrKeeps(k: Crypto, w: World, s: Store, v: Vector, req: Request)
    ensures var c := Check(k, w, s, v, req);
      c.Done? ==> MintsOrKeeps(k, s, v, req.policy.oidc.tokenSecret, c.out)
  {
    if Check(k, w, s, v, req).Done? {
      var out := Check(k, w, s, v, req).out;
      AnswerExact(k, w, s, v, req);
      if out.mint.Some? {
        MintIsObtained(k, w, s, v, req);
      }
      AnswerKeeps(k, w, s, v, req, out);
    }
  }

  lemma FinishKeeps(k: Crypto, w: World, s: Store, v: Vector, req: Request, out: Outcome)
    requires Finishes(k, w, s, v, req, out) && (out.mint.Some? ==> WellMinted(k, out.mint.value))
    ensures MintsOrKeeps(k, s, v, req.policy.oidc.tokenSecret, out)
  {
    var states, codes := Values(req.query, "state"), Values(req.query, "code");
    if |states| == 1 && |codes| == 1 && k.verifies(req.policy.oidc.tokenSecret, states[0]) &&
       k.decode(states[0]).Some? && w.exchange(codes[0]).Some?
    {
      SetTokenKeeps(k, w, s, v, req, w.exchange(codes[0]).value, AsPath(k.decode(states[0]).value), out);
    }
  }

  lemma RenewKeeps(k: Crypto, w: World, s: Store, v: Vector, req: Request, sess: Session, out: Outcome)
    requires Renews(k, w, s, v, req, sess, out) && (out.mint.Some? ==> WellMinted(k, out.mint.value))
    ensures MintsOrKeeps(k, s, v, req.policy.oidc.tokenSecret, out)
  {
    if w.refresh(sess.refreshToken).Some? {
      SetTokenKeeps(k, w, s, v, req, w.refresh(sess.refreshToken).value, "", out);
    }
  }

  lemma AnswerKeeps(k: Crypto, w: World, s: Store, v: Vector, req: Request, out: Outcome)
    requires Answers(k, w, s, v, req, out) && (out.mint.Some? ==> WellMinted(k, out.mint.value))
    ensures MintsOrKeeps(k, s, v, req.policy.oidc.tokenSecret, out)
  {
    if req.path == req.policy.oidc.callback {
      FinishKeeps(k, w, s, v, req, out);
    } else if tok, c, sess :| Known(k, s, req, tok, c, sess) {
      if !ValidAt(c, w.now) {
        RenewKeeps(k, w, s, v, req, sess, out);
      }
    }
  }

  // ---------------------------------------------------------------------------
  // A whole login

  /** The callback request that a login started by `start` ends in. */
  ghost predicate Returns(k: Crypto, w: World, start: Request, back: Request, tok: OAuthToken) {
    && back.policy == start.policy && back.path == back.policy.oidc.callback
    && "state" in back.query && "code" in back.query && |back.query["code"]| == 1
    && k.sign(start.policy.oidc.tokenSecret, StatePayload(start.path)).Some?
    && back.query["state"] == [k.sign(start.policy.oidc.tokenSecret, StatePayload(start.path)).value]
    && w.exchange(back.query["code"][0]) == Some(tok)
  }

  /**
    A whole login: the state token sent out by the first answer brings the caller back to the
    path they asked for, and the token set as a cookie then makes them known with the roles of
    the provider's tokens, at this replica at once.
   */
  lemma LoginRoundTrip(
      k: Crypto, w: World, s: Store, v: Vector, start: Request, back: Request, tok: OAuthToken, m: Mint, next: Request)
    requires Lawful(k) && Returns(k, w, start, back, tok) && MintOf(k, w, back, tok, m)
    requires start.fetchMode in ["", "navigate", "nested-navigate"] && start.path != ""
    requires next.policy == start.policy && FirstBearer(next.cookies, m.token)
    requires Put(s, Stamped(m.session, ZERO_STAMP)).1.Some?
    ensures StartOidc(k, w, start) == Response(303, map["location" := w.authUrl(back.query["state"][0])])
    ensures Check(k, w, s, v, back).Done?
    ensures var out := Check(k, w, s, v, back).out;
      && out.mint == Some(m)
      && out.res == Response(303, map["set-cookie" := w.cookie(m.token), "location" := start.path])
      && Known(k, out.store, next, m.token, m.claims, m.session)
  {
    var state := back.query["state"][0];
    LocationExact(back.query);
    assert k.decode(state) == Some(StatePayload(start.path)) && k.verifies(back.policy.oidc.tokenSecret, state);
    assert k.decode(m.token) == Some(BearerPayload(m.claims));
    NewMintExact(k, w, back, tok);
    assert Check(k, w, s, v, back) == SetToken(k, w, s, v, back, tok, start.path);
    SetTokenExact(k, w, s, v, back, tok, start.path);
    assert Known(k, SetToken(k, w, s, v, back, tok, start.path).out.store, next, m.token, m.claims, m.session);
  }
}

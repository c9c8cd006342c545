/**
  The authorization server as the object that handles requests (auth/check.go): it reads and
  writes the session store and starts the sends to the peers.
 */
module AuthServer {
  import opened Options
  import opened Sessions
  import opened Replication
  import opened Auth

  method BearerLoop(cookies: seq<(string, string)>) returns (value: string)
    ensures value == Bearer(cookies)
  {
    var i := 0;
    while i < |cookies|
      invariant 0 <= i <= |cookies| && Bearer(cookies) == Bearer(cookies[i..])
    {
      if cookies[i].0 == BEARER_COOKIE {
        return cookies[i].1;
      }
      assert cookies[i..][1..] == cookies[i + 1..];
      i := i + 1;
    }
    return "";
  }

  /** `request.location`, with its two loops. */
  method LocationLoops(query: map<string, seq<string>>) returns (logged: Option<map<string, seq<string>>>)
    ensures logged == Location(query)
  {
    var values := Values(query, "state");
    var codes := |Values(query, "code")|;
    ghost var states := values;
    DashExact(states, |states|);
    for i := 0 to |values|
      invariant |values| == |states| && Dash(states, i) == Some(values)
    {
      values := values[i := "-"];
    }
    ghost var dashed := values;
    DashExact(dashed, codes);
    for i := 0 to codes
      invariant |values| == |dashed| && Dash(dashed, i) == Some(values)
    {
      if i >= |values| {
        return None;
      }
      values := values[i := "-"];
    }
    return Some(if "state" in query then query["state" := values] else query);
  }

  class Server {
    const sessions: SessionStore
    const self: Self

    ghost predicate Valid()
      reads this, sessions, self
    {
      sessions.Valid() && self.sessStore == sessions && self.id == sessions.id
    }

    /** What a request came to: no response if the process panicked, else the new state and one send per connection. */
    ghost predicate Did(c: Checked, conns: set<string>, res: Option<Response>, sends: seq<(string, Stamped)>)
      reads this, sessions, self
    {
      match c
      case Crash => res == None && sends == []
      case Done(out) =>
        && res == Some(out.res) && sessions.State() == out.store && self.latest == out.latest
        && (out.sent.None? ==> sends == [])
        && (out.sent.Some? ==> forall c :: (c, out.sent.value) in sends <==> c in conns)
    }

    constructor (sessions: SessionStore, self: Self)
      requires sessions.Valid() && self.sessStore == sessions && self.id == sessions.id
      ensures Valid() && this.sessions == sessions && this.self == self
    {
      this.sessions := sessions;
      this.self := self;
    }

    method Check(k: Crypto, w: World, conns: set<string>, req: Request)
      returns (res: Option<Response>, sends: seq<(string, Stamped)>)
      requires Valid()
      modifies sessions, self
      ensures Valid()
      ensures Did(Auth.Check(k, w, old(sessions.State()), old(self.latest), req), conns, res, sends)
    {
      sends := [];
      var loc := LocationLoops(req.query);
      if loc.None? {
        return None, [];
      }
      if req.path == req.policy.oidc.callback {
        res, sends := FinishOidc(k, w, conns, req);
      } else {
        var who := IsAuthenticated(k, req);
        if who.None? {
          var r := Auth.StartOidc(k, w, req);
          res := Some(r);
        } else if ClaimsExpired(who.value.0, w.now) {
          res, sends := UpdateToken(k, w, conns, req, who.value.1);
        } else {
          var r := Authorize(req, who.value.0);
          res := Some(r);
        }
      }
    }

    method IsAuthenticated(k: Crypto, req: Request) returns (who: Option<(Claims, Session)>)
      requires Valid()
      ensures who == Authenticate(k, sessions.State(), req)
    {
      var token := BearerLoop(req.cookies);
      if token == "" {
        return None;
      }
      var parsed := ParseToken(k, req.policy.oidc.tokenSecret, token);
      if parsed.None? {
        return None;
      }
      var sess := sessions.Get(k.hash(token));
      return if sess.Some? then Some((AsBearer(parsed.value), sess.value)) else None;
    }

    method FinishOidc(k: Crypto, w: World, conns: set<string>, req: Request)
      returns (res: Option<Response>, sends: seq<(string, Stamped)>)
      requires Valid()
      modifies sessions, self
      ensures Valid()
      ensures Did(Auth.FinishOidc(k, w, old(sessions.State()), old(self.latest), req), conns, res, sends)
    {
      sends := [];
      var q := req.query;
      if "state" !in q || |q["state"]| != 1 || "code" !in q || |q["code"]| != 1 {
        return Some(Response(BAD_REQUEST, map[])), [];
      }
      var claims := ParseToken(k, req.policy.oidc.tokenSecret, q["state"][0]);
      if claims.None? {
        return Some(Response(BAD_REQUEST, map[])), [];
      }
      var tok := w.exchange(q["code"][0]);
      if tok.None? {
        return Some(Response(FORBIDDEN, map[])), [];
      }
      res, sends := SetToken(k, w, conns, req, tok.value, AsPath(claims.value));
    }

    method UpdateToken(k: Crypto, w: World, conns: set<string>, req: Request, sess: Session)
      returns (res: Option<Response>, sends: seq<(string, Stamped)>)
      requires Valid()
      modifies sessions, self
      ensures Valid()
      ensures Did(Auth.UpdateToken(k, w, old(sessions.State()), old(self.latest), req, sess), conns, res, sends)
    {
      var tok := w.refresh(sess.refreshToken);
      if tok.None? {
        return Some(Response(FORBIDDEN, map[])), [];
      }
      res, sends := SetToken(k, w, conns, req, tok.value, "");
    }

    method SetToken(k: Crypto, w: World, conns: set<string>, req: Request, tok: OAuthToken, uri: string)
      returns (res: Option<Response>, sends: seq<(string, Stamped)>)
      requires Valid()
      modifies sessions, self
      ensures Valid()
      ensures Did(Auth.SetToken(k, w, old(sessions.State()), old(self.latest), req, tok, uri), conns, res, sends)
    {
      var data := Extract(w, tok);
      if data.NoIdToken? {
        return None, [];
      }
      var m := NewMint(k, w, req, tok);
      if m.None? {
        return Some(Response(INTERNAL_SERVER_ERROR, map[])), [];
      }
      var r := sessions.Set(Stamped(m.value.session, ZERO_STAMP));
      var x := if r.Some? then r.value else NO_SESSION;
      sends := ClientSetSession(self, conns, x);
      var headers := map["set-cookie" := w.cookie(m.value.token)];
      if uri == "" {
        res := Some(Response(TEMPORARY_REDIRECT, headers["location" := req.uri]));
      } else {
        res := Some(Response(SEE_OTHER, headers["location" := uri]));
      }
    }

    method Authorize(req: Request, c: Claims) returns (res: Response)
      ensures res == Auth.Authorize(req, c)
    {
      var allow := R.HasRoles(req.route.roles, c.roles);
      if !allow {
        return Response(FORBIDDEN, map[]);
      }
      var headers := map[];
      var hs := req.route.headers;
      for i := 0 to |hs|
        invariant headers == GrantedHeaders(hs[..i], c.roles)
      {
        assert hs[..i + 1][..i] == hs[..i];
        var has := R.HasRoles(hs[i].roles, c.roles);
        if has {
          headers := headers[hs[i].name := hs[i].value];
        }
      }
      assert hs[..|hs|] == hs;
      return Response(OK, headers);
    }
  }
}

/**
  The connections of one replica: their flags, the table of them by endpoint, and the
  handshake that a peer starts (replication/connection.go, peers.go, server.go).
 */
module Peers {
  import opened Options
  import opened Sessions
  import opened Streaming
  import opened Replication

  class Connection {
    const ep: string
    var live: bool
    var dead: bool
    /** The guard of `reestablish` is taken. */
    var once: bool

    constructor (ep: string)
      ensures this.ep == ep && !live && !dead && !once
    {
      this.ep := ep;
      live, dead, once := false, false, false;
    }

    /** `update` against a peer that reported `latest`; `items` and `eof` are the stream's answer. */
    method Update(self: Self, latest: seq<Stamp>, items: seq<Stamped>, eof: bool)
      requires self.sessStore.Valid()
      modifies this`live, self.sessStore
      ensures self.sessStore.Valid()
      ensures var s := old(self.sessStore.State());
        if Behind(self.latest, Decode(latest))
        then self.sessStore.State() == Ingest(s, items).0 && (live <==> eof && Ingest(s, items).1)
        else self.sessStore.State() == s && live
    {
      var mapped := LatestFromProto(latest);
      var update := self.NeedsUpdate(mapped);
      if update {
        var ok := StreamSessions(self, items, eof);
        live := ok;
      } else {
        live := true;
      }
    }

    /**
      `reestablish` as one call. Whoever finds the guard taken changes nothing, not even
      `live`; after a cancelled connection the guard stays taken. `shake` says that a new
      handshake is started.
     */
    method Reestablish(canceled: bool) returns (shake: bool)
      modifies this`live, this`once
      ensures live <==> old(live) && old(once)
      ensures once <==> old(once) || canceled
      ensures shake <==> !old(once) && !canceled
    {
      if once {
        return false;
      }
      once := true;
      live := false;
      if canceled {
        return false;
      }
      once := false;
      return true;
    }

    method Disconnect()
      modifies this`dead
      ensures dead
    {
      dead := true;
    }
  }

  class Table {
    var conns: map<string, Connection>

    /** Each endpoint has a connection of its own, and no connection in use is dead. */
    ghost predicate Valid()
      reads this, conns.Values
    {
      forall ep :: ep in conns ==> conns[ep].ep == ep && !conns[ep].dead
    }

    constructor ()
      ensures Valid() && conns == map[]
    {
      conns := map[];
    }

    /** `found` is what the lookup of endpoints returned, nothing if it failed. */
    method Refresh(found: Option<seq<string>>)
      requires Valid()
      modifies this, conns.Values`dead
      ensures Valid()
      ensures found.None? ==> conns == old(conns)
      ensures found.Some? ==> conns == map ep | ep in old(conns) && ep in found.value :: old(conns)[ep]
      ensures forall ep :: ep in old(conns) ==> (old(conns)[ep].dead <==> ep !in conns)
    {
      if found.None? {
        return;
      }
      ghost var was := conns;
      var todo := conns.Keys;
      while todo != {}
        invariant todo <= was.Keys && todo <= conns.Keys
        invariant conns == map ep | ep in was && (ep in todo || ep in found.value) :: was[ep]
        invariant forall ep :: ep in was ==> was[ep].ep == ep
        invariant forall ep :: ep in was ==> (was[ep].dead <==> ep !in todo && ep !in found.value)
        decreases todo
      {
        var ep :| ep in todo;
        if ep !in found.value {
          conns[ep].Disconnect();
          conns := conns - {ep};
        }
        todo := todo - {ep};
      }
    }

    method GetConnection(ep: string) returns (conn: Connection, isNew: bool)
      requires Valid()
      modifies this
      ensures Valid()
      ensures isNew <==> ep !in old(conns)
      ensures isNew ==> fresh(conn) && !conn.live && !conn.once
      ensures conns == if isNew then old(conns)[ep := conn] else old(conns)
      ensures ep in conns && conns[ep] == conn
    {
      if ep !in conns {
        conn := new Connection(ep);
        conns := conns[ep := conn];
        isNew := true;
      } else {
        conn := conns[ep];
        isNew := false;
      }
    }

    /** Every connection once. */
    method GetConnections() returns (all: seq<Connection>)
      requires Valid()
      ensures forall c :: c in all <==> c in conns.Values
      ensures |all| == |conns| && forall i, j :: 0 <= i < j < |all| ==> all[i] != all[j]
    {
      all := [];
      var todo := conns.Keys;
      while todo != {}
        invariant todo <= conns.Keys && |all| + |todo| == |conns|
        invariant forall c :: c in all <==> c.ep in conns.Keys - todo && conns[c.ep] == c
        invariant forall i, j :: 0 <= i < j < |all| ==> all[i] != all[j]
        decreases todo
      {
        var ep :| ep in todo;
        assert conns[ep] !in all;
        all := all + [conns[ep]];
        todo := todo - {ep};
      }
    }
  }

  /**
    `Server.Handshake`: a peer with one's own id is turned away and leaves no trace. Any other
    gets the vector and a connection, and if there was one that is live, an update on it is
    started.
   */
  method ServerHandshake(self: Self, table: Table, peerId: string, peerEp: string)
    returns (res: Option<seq<Stamp>>, update: Option<Connection>)
    requires table.Valid()
    modifies table
    ensures table.Valid()
    ensures res.None? <==> peerId == self.id
    ensures res.None? ==> table.conns == old(table.conns) && update.None?
    ensures res.Some? ==> Decode(res.value) == self.latest
    ensures res.Some? ==> peerEp in table.conns && table.conns == old(table.conns)[peerEp := table.conns[peerEp]]
    ensures res.Some? && peerEp in old(table.conns) ==> table.conns == old(table.conns)
    ensures update == if res.Some? && peerEp in old(table.conns) && old(table.conns[peerEp].live)
                      then Some(old(table.conns)[peerEp]) else None
  {
    if peerId == self.id {
      return None, None;
    }
    var conn, isNew := table.GetConnection(peerEp);
    update := if conn.live then Some(conn) else None;
    var latest := self.CopyLatest();
    var proto := LatestToProto(latest);
    VectorRoundTrip(latest, proto);
    return Some(proto), update;
  }
}

/**
  Version vectors and the replication handlers of one replica
  (replication/self.go, maps.go, client.go, server.go, connection.go).
 */
module Replication {
  import opened Sessions
  import opened SessionProperties
  import opened Streaming

  // ---------------------------------------------------------------------------
  // Version vectors

  /** `update`: record a serial if it is larger than the recorded one. */
  function Raise(v: Vector, t: Stamp): Vector {
    if At(v, t.peer) < t.serial then v[t.peer := t.serial] else v
  }

  function RaiseAll(v: Vector, ts: seq<Stamp>): Vector {
    if ts == [] then v else Raise(RaiseAll(v, ts[..|ts| - 1]), ts[|ts| - 1])
  }

  /** `v` is the pointwise maximum of the stamps `ts`; peers without a positive serial are absent. */
  ghost predicate MaximumOf(v: Vector, ts: set<Stamp>) {
    && (forall t :: t in ts ==> t.serial <= At(v, t.peer))
    && (forall p :: p in v ==> v[p] > 0 && Stamp(p, v[p]) in ts)
  }

  lemma RaiseKeepsMaximum(v: Vector, ts: set<Stamp>, t: Stamp)
    requires MaximumOf(v, ts)
    ensures MaximumOf(Raise(v, t), ts + {t})
    ensures forall p :: At(v, p) <= At(Raise(v, t), p)
  {}

  lemma MaximumUnique(v: Vector, w: Vector, ts: set<Stamp>)
    requires MaximumOf(v, ts) && MaximumOf(w, ts)
    ensures v == w
  {
    forall p ensures At(v, p) == At(w, p) && (p in v <==> p in w) {
      if p in v {
        assert Stamp(p, v[p]) in ts;
      }
      if p in w {
        assert Stamp(p, w[p]) in ts;
      }
    }
    assert v.Keys == w.Keys;
    assert forall p :: p in v ==> At(v, p) == At(w, p);
  }

  lemma {:induction false} RaiseAllIsMaximum(ts: seq<Stamp>)
    ensures MaximumOf(RaiseAll(map[], ts), (set t | t in ts))
  {
    if ts != [] {
      var us := ts[..|ts| - 1];
      RaiseAllIsMaximum(us);
      RaiseKeepsMaximum(RaiseAll(map[], us), (set t | t in us), ts[|ts| - 1]);
      assert ts == us + [ts[|ts| - 1]];
      assert (set t | t in ts) == (set t | t in us) + {ts[|ts| - 1]};
    }
  }

  /** Updates in another order, or repeated, end in the same vector. */
  lemma UpdateOrderIrrelevant(ts: seq<Stamp>, us: seq<Stamp>)
    requires forall t :: t in ts <==> t in us
    ensures RaiseAll(map[], ts) == RaiseAll(map[], us)
  {
    RaiseAllIsMaximum(ts);
    RaiseAllIsMaximum(us);
    assert (set t | t in ts) == (set t | t in us);
    MaximumUnique(RaiseAll(map[], ts), RaiseAll(map[], us), (set t | t in ts));
  }

  /** `needsUpdate`: the peer names a serial larger than the one recorded here. */
  ghost predicate Behind(mine: Vector, theirs: Vector) {
    exists p :: p in theirs && At(mine, p) < theirs[p]
  }

  /** An update is asked for exactly when the peer's vector is not pointwise below one's own. */
  lemma BehindExact(mine: Vector, theirs: Vector)
    ensures Behind(mine, theirs) <==> !(forall p :: At(theirs, p) <= At(mine, p))
  {
    if !(forall p :: At(theirs, p) <= At(mine, p)) {
      var p :| At(mine, p) < At(theirs, p);
      assert p in theirs;
    }
    if Behind(mine, theirs) {
      var p :| p in theirs && At(mine, p) < theirs[p];
      assert At(theirs, p) > At(mine, p);
    }
  }

  /** After a handshake both ways nobody asks exactly when the vectors agree everywhere. */
  lemma NobodyBehindExact(a: Vector, b: Vector)
    ensures !Behind(a, b) && !Behind(b, a) <==> forall p :: At(a, p) == At(b, p)
  {
    BehindExact(a, b);
    BehindExact(b, a);
    if (forall p :: At(b, p) <= At(a, p)) && (forall p :: At(a, p) <= At(b, p)) {
      assert forall p :: At(a, p) == At(b, p);
    }
  }

  // ---------------------------------------------------------------------------
  // Vectors on the wire

  /** `proto` lists the entries of `dict`, each once, in some order. */
  ghost predicate Encodes(dict: Vector, proto: seq<Stamp>) {
    && (forall i, j :: 0 <= i < j < |proto| ==> proto[i].peer != proto[j].peer)
    && (forall t :: t in proto <==> t.peer in dict && dict[t.peer] == t.serial)
  }

  method LatestToProto(dict: Vector) returns (proto: seq<Stamp>)
    ensures Encodes(dict, proto)
  {
    proto := [];
    var todo := dict.Keys;
    while todo != {}
      invariant todo <= dict.Keys
      invariant forall i, j :: 0 <= i < j < |proto| ==> proto[i].peer != proto[j].peer
      invariant forall t :: t in proto <==> t.peer in dict.Keys - todo && dict[t.peer] == t.serial
      decreases todo
    {
      var k :| k in todo;
      assert forall i :: 0 <= i < |proto| ==> proto[i] in proto;
      proto := proto + [Stamp(k, dict[k])];
      todo := todo - {k};
    }
  }

  function Decode(proto: seq<Stamp>): Vector {
    if proto == [] then map[]
    else Decode(proto[..|proto| - 1])[proto[|proto| - 1].peer := proto[|proto| - 1].serial]
  }

  method LatestFromProto(proto: seq<Stamp>) returns (dict: Vector)
    ensures dict == Decode(proto)
  {
    dict := map[];
    for i := 0 to |proto|
      invariant dict == Decode(proto[..i])
    {
      assert proto[..i + 1][..i] == proto[..i];
      dict := dict[proto[i].peer := proto[i].serial];
    }
    assert proto[..|proto|] == proto;
  }

  lemma {:induction false} DecodeLooksUp(proto: seq<Stamp>, p: string)
    requires forall i, j :: 0 <= i < j < |proto| ==> proto[i].peer != proto[j].peer
    ensures p in Decode(proto) <==> exists i :: 0 <= i < |proto| && proto[i].peer == p
    ensures p in Decode(proto) ==> Stamp(p, Decode(proto)[p]) in proto
  {
    if proto != [] {
      DecodeLooksUp(proto[..|proto| - 1], p);
      assert proto == proto[..|proto| - 1] + [proto[|proto| - 1]];
    }
  }

  /** A peer that is named more than once has its last serial. */
  lemma {:induction false} DecodeExact(proto: seq<Stamp>, p: string)
    ensures p in Decode(proto) <==> exists i :: 0 <= i < |proto| && proto[i].peer == p
    ensures forall i ::
              0 <= i < |proto| && proto[i].peer == p && (forall j :: i < j < |proto| ==> proto[j].peer != p) ==>
              p in Decode(proto) && Decode(proto)[p] == proto[i].serial
  {
    var n := |proto| - 1;
    if n >= 0 {
      DecodeExact(proto[..n], p);
      assert forall i :: 0 <= i < n ==> proto[..n][i] == proto[i];
      if p in Decode(proto[..n]) {
        var i :| 0 <= i < n && proto[..n][i].peer == p;
        assert proto[i].peer == p;
      }
    }
  }

  /** Whatever order the map was walked in, decoding gives the vector back. */
  lemma VectorRoundTrip(dict: Vector, proto: seq<Stamp>)
    requires Encodes(dict, proto)
    ensures Decode(proto) == dict
  {
    forall p ensures p in Decode(proto) <==> p in dict {
      DecodeLooksUp(proto, p);
      if p in dict {
        assert Stamp(p, dict[p]) in proto;
      }
      if p in Decode(proto) {
        assert Stamp(p, Decode(proto)[p]) in proto;
      }
    }
    forall p | p in dict ensures Decode(proto)[p] == dict[p] {
      DecodeLooksUp(proto, p);
      assert Stamp(p, Decode(proto)[p]) in proto;
    }
  }

  // ---------------------------------------------------------------------------
  // The replica's own vector

  class Self {
    const id: string
    const sessStore: SessionStore
    var latest: Vector

    constructor (id: string, sessStore: SessionStore)
      ensures this.id == id && this.sessStore == sessStore && latest == map[]
    {
      this.id := id;
      this.sessStore := sessStore;
      latest := map[];
    }

    method CopyLatest() returns (copy: Vector)
      ensures copy == latest
    {
      copy := map[];
      var todo := latest.Keys;
      while todo != {}
        invariant todo <= latest.Keys && copy.Keys == latest.Keys - todo
        invariant forall k :: k in copy ==> copy[k] == latest[k]
        decreases todo
      {
        var k :| k in todo;
        copy := copy[k := latest[k]];
        todo := todo - {k};
      }
    }

    method NeedsUpdate(theirs: Vector) returns (needed: bool)
      ensures needed <==> Behind(latest, theirs)
      ensures needed <==> !(forall p :: At(theirs, p) <= At(latest, p))
    {
      BehindExact(latest, theirs);
      needed := false;
      var todo := theirs.Keys;
      while todo != {}
        invariant todo <= theirs.Keys && !needed
        invariant forall p :: p in theirs.Keys - todo ==> At(latest, p) >= theirs[p]
        decreases todo
      {
        var k :| k in todo;
        if At(latest, k) < theirs[k] {
          needed := true;
          break;
        }
        todo := todo - {k};
      }
    }

    method Update(id: string, serial: Serial)
      modifies this
      ensures latest == Raise(old(latest), Stamp(id, serial))
    {
      if At(latest, id) < serial {
        latest := latest[id := serial];
      }
    }
  }

  // ---------------------------------------------------------------------------
  // Handlers

  /** Whatever order the vectors travel in, after a handshake nobody asks exactly when they agree. */
  lemma HandshakeExact(a: Vector, b: Vector, sentA: seq<Stamp>, sentB: seq<Stamp>)
    requires Encodes(a, sentA) && Encodes(b, sentB)
    ensures !Behind(a, Decode(sentB)) && !Behind(b, Decode(sentA)) <==> forall p :: At(a, p) == At(b, p)
  {
    VectorRoundTrip(a, sentA);
    VectorRoundTrip(b, sentB);
    NobodyBehindExact(a, b);
  }

  /** What one pushed session does to a replica: `Set`, and `update` only if it was accepted. */
  function Receive(s: Store, v: Vector, x: Stamped): (Store, Vector) {
    var (t, r) := Put(s, x);
    (t, if r.Some? then Raise(v, x.stamp) else v)
  }

  /** `Server.SetSession`. */
  method ServerSetSession(self: Self, x: Stamped) returns (ok: bool)
    requires self.sessStore.Valid()
    modifies self, self.sessStore
    ensures self.sessStore.Valid()
    ensures (self.sessStore.State(), self.latest) == Receive(old(self.sessStore.State()), old(self.latest), x)
    ensures ok == Put(old(self.sessStore.State()), x).1.Some?
  {
    var r := self.sessStore.Set(x);
    ok := r.Some?;
    if ok {
      self.Update(x.stamp.peer, x.stamp.serial);
    }
  }

  /** `Client.SetSession`: record the serial as one's own, then start one send per connection. */
  method ClientSetSession(self: Self, conns: set<string>, x: Stamped) returns (sends: seq<(string, Stamped)>)
    modifies self
    ensures self.latest == Raise(old(self.latest), Stamp(self.id, x.stamp.serial))
    ensures |sends| == |conns| && forall c :: (c, x) in sends <==> c in conns
    ensures forall m :: m in sends ==> m.1 == x
  {
    self.Update(self.id, x.stamp.serial);
    sends := [];
    var todo := conns;
    while todo != {}
      invariant todo <= conns && |sends| + |todo| == |conns|
      invariant forall c :: (c, x) in sends <==> c in conns - todo
      invariant forall m :: m in sends ==> m.1 == x
      decreases todo
    {
      var c :| c in todo;
      sends := sends + [(c, x)];
      todo := todo - {c};
    }
  }

  lemma IngestAccepted(s: Store, items: seq<Stamped>, i: nat)
    requires i < |items| && Ingest(s, items[..i]).1
    requires Put(Ingest(s, items[..i]).0, items[i]).1.Some?
    ensures Ingest(s, items[..i + 1]) == (Put(Ingest(s, items[..i]).0, items[i]).0, true)
  {
    IngestAppend(s, items[..i], [items[i]]);
    assert items[..i + 1] == items[..i] + [items[i]];
  }

  /** A refusal ends the stream where it is. */
  lemma IngestRefused(s: Store, items: seq<Stamped>, i: nat)
    requires i < |items| && Ingest(s, items[..i]).1
    requires Put(Ingest(s, items[..i]).0, items[i]).1.None?
    ensures Ingest(s, items) == (Put(Ingest(s, items[..i]).0, items[i]).0, false)
  {
    IngestAppend(s, items[..i], items[i..]);
    assert items[..i] + items[i..] == items;
  }

  /** `streamSessions`: `eof` says whether the stream ended by itself or by a transport error. */
  method StreamSessions(self: Self, items: seq<Stamped>, eof: bool) returns (live: bool)
    requires self.sessStore.Valid()
    modifies self.sessStore
    ensures self.sessStore.Valid()
    ensures self.sessStore.State() == Ingest(old(self.sessStore.State()), items).0
    ensures live <==> eof && Ingest(old(self.sessStore.State()), items).1
  {
    ghost var s := self.sessStore.State();
    var i := 0;
    while i < |items|
      invariant 0 <= i <= |items|
      invariant self.sessStore.Valid() && Ingest(s, items[..i]) == (self.sessStore.State(), true)
    {
      var r := self.sessStore.Set(items[i]);
      if r.None? {
        IngestRefused(s, items, i);
        return false;
      }
      IngestAccepted(s, items, i);
      i := i + 1;
    }
    assert items[..|items|] == items;
    return eof;
  }

  function ReceiveAll(s: Store, v: Vector, xs: seq<Stamped>): (Store, Vector) {
    if xs == [] then (s, v)
    else
      var (t, w) := ReceiveAll(s, v, xs[..|xs| - 1]);
      Receive(t, w, xs[|xs| - 1])
  }

  /** The recorded serial of a peer is that of the last entry of its list. */
  predicate LatestIsLast(s: Store, v: Vector, p: string) {
    var l := Entries(s, p);
    At(v, p) == if l == [] then 0 else l[|l| - 1].stamp.serial
  }

  lemma ReceiveKeepsLatest(s: Store, v: Vector, x: Stamped, p: string)
    requires LatestIsLast(s, v, p) && x.stamp != ZERO_STAMP
    ensures LatestIsLast(Receive(s, v, x).0, Receive(s, v, x).1, p)
  {}

  /**
    Pushed sessions in any order, repeated or not: each list is the left-to-right maxima and
    the recorded serial is the largest one delivered, or zero when there was none.
   */
  lemma {:induction false} PushedInAnyOrder(id: string, xs: seq<Stamped>, p: string)
    requires forall i :: 0 <= i < |xs| ==> xs[i].stamp != ZERO_STAMP
    ensures var (t, w) := ReceiveAll(Fresh(id), map[], xs);
      && Entries(t, p) == Records(FromPeer(xs, p))
      && (forall x :: x in FromPeer(xs, p) ==> x.stamp.serial <= At(w, p))
      && (if FromPeer(xs, p) == [] then At(w, p) == 0
          else exists x :: x in FromPeer(xs, p) && x.stamp.serial == At(w, p))
  {
    ReceiveAllIsDeliver(id, xs, p);
    DeliveriesLeaveRecords(id, xs, p);
    if FromPeer(xs, p) != [] {
      LastRecord(FromPeer(xs, p));
    }
  }

  lemma {:induction false} ReceiveAllIsDeliver(id: string, xs: seq<Stamped>, p: string)
    requires forall i :: 0 <= i < |xs| ==> xs[i].stamp != ZERO_STAMP
    ensures var (t, w) := ReceiveAll(Fresh(id), map[], xs);
      t == Deliver(Fresh(id), xs) && LatestIsLast(t, w, p)
  {
    if xs != [] {
      var ys := xs[..|xs| - 1];
      ReceiveAllIsDeliver(id, ys, p);
      var (t, w) := ReceiveAll(Fresh(id), map[], ys);
      ReceiveKeepsLatest(t, w, xs[|xs| - 1], p);
    }
  }
}

/**
  The session store of one replica (state/session/store.go): per origin peer a list of
  stamped sessions, and an index from session id to session that every request reads.

  `Store` is the value of a store and `Put`, `Remove` and `CleanPass` say what the
  operations do to it; the class `SessionStore` is proved against them.
 */
module Sessions {
  import opened Options

  /** Serials are unsigned 64-bit numbers; incrementing the counter wraps. */
  const U64: nat := 0x1_0000_0000_0000_0000
  type Serial = n: int | 0 <= n < 0x1_0000_0000_0000_0000

  /** A point in time; only the order matters. */
  type Time = int

  datatype Session = Session(id: string, refreshToken: string, expiry: Time)
  datatype Stamp = Stamp(peer: string, serial: Serial)
  datatype Stamped = Stamped(session: Session, stamp: Stamp)

  /** The stamp of a session that no replica has stamped yet. */
  const ZERO_STAMP: Stamp := Stamp("", 0)

  datatype Store = Store(
    id: string, curr: Serial, lookup: map<string, Session>, lists: map<string, seq<Stamped>>)

  function Fresh(id: string): Store {
    Store(id, 0, map[], map[])
  }

  /** The list kept for `peer`; a missing list reads as an empty one. */
  function Entries(s: Store, peer: string): seq<Stamped> {
    if peer in s.lists then s.lists[peer] else []
  }

  predicate Holds(s: Store, e: Stamped) {
    e in Entries(s, e.stamp.peer)
  }

  function Lookup(s: Store, id: string): Option<Session> {
    if id in s.lookup then Some(s.lookup[id]) else None
  }

  // ---------------------------------------------------------------------------
  // Set

  /** An unstamped session gets this replica's id and the next serial. */
  function Restamp(s: Store, x: Stamped): Stamped {
    if x.stamp == ZERO_STAMP then x.(stamp := Stamp(s.id, (s.curr + 1) % U64)) else x
  }

  predicate OutOfOrder(s: Store, t: Stamp) {
    var l := Entries(s, t.peer);
    l != [] && t.serial <= l[|l| - 1].stamp.serial
  }

  function Append(s: Store, y: Stamped): Store {
    s.(lists := s.lists[y.stamp.peer := Entries(s, y.stamp.peer) + [y]],
       lookup := s.lookup[y.session.id := y.session])
  }

  function Put(s: Store, x: Stamped): (Store, Option<Stamped>) {
    var y := Restamp(s, x);
    var t := if x.stamp == ZERO_STAMP then s.(curr := y.stamp.serial) else s;
    if OutOfOrder(t, y.stamp) then (t, None) else (Append(t, y), Some(y))
  }

  // ---------------------------------------------------------------------------
  // Invariants

  predicate Increasing(l: seq<Stamped>) {
    forall i, j :: 0 <= i < j < |l| ==> l[i].stamp.serial < l[j].stamp.serial
  }

  predicate OfPeer(l: seq<Stamped>, peer: string) {
    forall i :: 0 <= i < |l| ==> l[i].stamp.peer == peer
  }

  /** Every list holds its own peer's entries, by strictly increasing serial. */
  predicate WellKept(s: Store) {
    forall p :: p in s.lists ==> OfPeer(s.lists[p], p) && Increasing(s.lists[p])
  }

  /** No entry carries the stamp that means "not stamped yet". */
  ghost predicate NoZero(s: Store) {
    s.id != "" && forall e :: Holds(s, e) ==> e.stamp != ZERO_STAMP
  }

  /** Every index entry is filed under its own id and has a matching list entry. */
  ghost predicate IndexSound(s: Store) {
    forall id :: id in s.lookup ==>
      s.lookup[id].id == id && exists t: Stamp :: Holds(s, Stamped(s.lookup[id], t))
  }

  /** A lookup of its id finds the session. */
  predicate Found(s: Store, x: Session) {
    Lookup(s, x.id) == Some(x)
  }

  /** Every list entry is the one the index has under its id. */
  ghost predicate IndexComplete(s: Store) {
    forall e :: Holds(s, e) ==> Found(s, e.session)
  }

  lemma SetKeepsOrder(s: Store, x: Stamped)
    requires WellKept(s)
    ensures WellKept(Put(s, x).0)
  {
    var y := Restamp(s, x);
    var l := Entries(s, y.stamp.peer);
    assert OfPeer(l, y.stamp.peer) && Increasing(l);
    if !OutOfOrder(s, y.stamp) {
      assert OfPeer(l + [y], y.stamp.peer) && Increasing(l + [y]);
    }
  }

  /** What a store holds after a `Set`: what it held before, and the new entry if accepted. */
  lemma SetHolds(s: Store, x: Stamped, e: Stamped)
    ensures var (t, r) := Put(s, x);
      Holds(t, e) <==> Holds(s, e) || r == Some(e)
  {
    var (t, r) := Put(s, x);
    if r.Some? {
      assert Entries(t, r.value.stamp.peer) == Entries(s, r.value.stamp.peer) + [r.value];
    }
  }

  lemma SetKeepsIndexSound(s: Store, x: Stamped)
    requires IndexSound(s)
    ensures IndexSound(Put(s, x).0)
  {
    var (t, r) := Put(s, x);
    forall id | id in t.lookup
      ensures t.lookup[id].id == id && exists u: Stamp :: Holds(t, Stamped(t.lookup[id], u))
    {
      if r.Some? && id == r.value.session.id {
        SetHolds(s, x, r.value);
        assert Holds(t, Stamped(t.lookup[id], r.value.stamp));
      } else {
        var u: Stamp :| Holds(s, Stamped(s.lookup[id], u));
        SetHolds(s, x, Stamped(s.lookup[id], u));
        assert Holds(t, Stamped(t.lookup[id], u));
      }
    }
  }

  lemma SetKeepsNoZero(s: Store, x: Stamped)
    requires NoZero(s)
    ensures NoZero(Put(s, x).0)
  {
    forall e | Holds(Put(s, x).0, e) ensures e.stamp != ZERO_STAMP {
      SetHolds(s, x, e);
    }
  }

  /** A refused session that arrives with a stamp leaves the store exactly as it was. */
  lemma RefusedSetChangesNothing(s: Store, x: Stamped)
    requires Put(s, x).1 == None
    ensures x.stamp != ZERO_STAMP ==> Put(s, x).0 == s
    ensures Put(s, x).0 == s.(curr := Put(s, x).0.curr)
  {}

  // ---------------------------------------------------------------------------
  // Removing entries

  function Without(l: seq<Stamped>, i: nat): (r: seq<Stamped>)
    requires i < |l|
  {
    l[..i] + l[i + 1..]
  }

  /** `delete`: takes one entry off a list and drops its id from the index. */
  function Remove(s: Store, peer: string, i: nat): Store
    requires i < |Entries(s, peer)|
  {
    s.(lists := s.lists[peer := Without(Entries(s, peer), i)],
       lookup := s.lookup - {Entries(s, peer)[i].session.id})
  }

  lemma WithoutMember(l: seq<Stamped>, i: nat, e: Stamped)
    requires i < |l| && Increasing(l)
    ensures e in Without(l, i) <==> e in l && e != l[i]
  {
    var r := Without(l, i);
    if e in r {
      var k :| 0 <= k < |r| && r[k] == e;
      assert e == l[if k < i then k else k + 1];
    }
    if e in l && e != l[i] {
      var k :| 0 <= k < |l| && l[k] == e;
      assert r[if k < i then k else k - 1] == e;
    }
  }

  lemma WithoutKeepsOrder(l: seq<Stamped>, i: nat, peer: string)
    requires i < |l| && OfPeer(l, peer) && Increasing(l)
    ensures OfPeer(Without(l, i), peer) && Increasing(Without(l, i))
  {
    var r := Without(l, i);
    assert forall k :: 0 <= k < |r| ==> r[k] == l[if k < i then k else k + 1];
  }

  lemma WithoutKeeps(l: seq<Stamped>, i: nat, peer: string)
    requires i < |l|
    requires OfPeer(l, peer) && Increasing(l)
    ensures OfPeer(Without(l, i), peer) && Increasing(Without(l, i))
    ensures forall e :: e in Without(l, i) <==> e in l && e != l[i]
  {
    WithoutKeepsOrder(l, i, peer);
    forall e ensures e in Without(l, i) <==> e in l && e != l[i] {
      WithoutMember(l, i, e);
    }
  }

  lemma RemoveHolds(s: Store, peer: string, i: nat, e: Stamped)
    requires WellKept(s) && i < |Entries(s, peer)|
    ensures Holds(Remove(s, peer, i), e) <==> Holds(s, e) && e != Entries(s, peer)[i]
  {
    WithoutKeeps(s.lists[peer], i, peer);
  }

  lemma RemoveKeeps(s: Store, peer: string, i: nat)
    requires WellKept(s) && i < |Entries(s, peer)|
    ensures WellKept(Remove(s, peer, i))
    ensures IndexSound(s) ==> IndexSound(Remove(s, peer, i))
    ensures NoZero(s) ==> NoZero(Remove(s, peer, i))
  {
    WithoutKeeps(s.lists[peer], i, peer);
    var t := Remove(s, peer, i);
    forall e ensures Holds(t, e) <==> Holds(s, e) && e != Entries(s, peer)[i] {
      RemoveHolds(s, peer, i, e);
    }
    if IndexSound(s) {
      forall id | id in t.lookup
        ensures t.lookup[id].id == id && exists u: Stamp :: Holds(t, Stamped(t.lookup[id], u))
      {
        var u: Stamp :| Holds(s, Stamped(s.lookup[id], u));
        assert Holds(t, Stamped(t.lookup[id], u));
      }
    }
  }

  /** After a removal the index is complete exactly when every other entry was found and none shares the id. */
  lemma RemoveKeepsIndexComplete(s: Store, peer: string, i: nat)
    requires WellKept(s) && i < |Entries(s, peer)|
    ensures IndexComplete(Remove(s, peer, i)) <==>
            forall e :: Holds(s, e) && e != Entries(s, peer)[i] ==>
              Found(s, e.session) && e.session.id != Entries(s, peer)[i].session.id
  {
    var gone := Entries(s, peer)[i];
    var t := Remove(s, peer, i);
    forall e ensures Holds(t, e) <==> Holds(s, e) && e != gone {
      RemoveHolds(s, peer, i, e);
    }
    assert forall x: Session :: Found(t, x) <==> Found(s, x) && x.id != gone.session.id;
  }

  // ---------------------------------------------------------------------------
  // One cleaning pass

  predicate Expired(e: Stamped, min: Time) {
    e.session.expiry < min
  }

  /** The index of the first expired entry, or the length of the list. */
  function FirstExpired(l: seq<Stamped>, min: Time): (i: nat)
    ensures i <= |l|
    ensures forall j :: 0 <= j < i ==> !Expired(l[j], min)
    ensures i < |l| ==> Expired(l[i], min)
  {
    if l == [] || Expired(l[0], min) then 0 else 1 + FirstExpired(l[1..], min)
  }

  /** A removed element has no successor, so the walk over a list ends at its first removal. */
  function DropFirst(l: seq<Stamped>, min: Time): seq<Stamped> {
    var i := FirstExpired(l, min);
    if i < |l| then Without(l, i) else l
  }

  function DroppedIds(s: Store, peers: set<string>, min: Time): set<string> {
    set p | p in s.lists && p in peers && FirstExpired(s.lists[p], min) < |s.lists[p]| ::
      s.lists[p][FirstExpired(s.lists[p], min)].session.id
  }

  /** The store after the walk has visited the lists of `peers`, in whatever order. */
  function CleanLists(s: Store, peers: set<string>, min: Time): Store {
    s.(lists := map p | p in s.lists :: if p in peers then DropFirst(s.lists[p], min) else s.lists[p],
       lookup := s.lookup - DroppedIds(s, peers, min))
  }

  function CleanPass(s: Store, min: Time): Store {
    CleanLists(s, s.lists.Keys, min)
  }

  /** The walk over one list. */
  function Visit(s: Store, p: string, min: Time): Store {
    var i := FirstExpired(Entries(s, p), min);
    if i < |Entries(s, p)| then Remove(s, p, i) else s
  }

  lemma CleanOneMore(s: Store, peers: set<string>, p: string, min: Time)
    requires p in s.lists && p !in peers
    ensures CleanLists(s, peers + {p}, min) == Visit(CleanLists(s, peers, min), p, min)
  {
    var i := FirstExpired(s.lists[p], min);
    var gone := if i < |s.lists[p]| then {s.lists[p][i].session.id} else {};
    assert DroppedIds(s, peers + {p}, min) == DroppedIds(s, peers, min) + gone;
    var c := CleanLists(s, peers, min);
    assert Entries(c, p) == s.lists[p];
    assert c.lookup - gone == s.lookup - DroppedIds(s, peers + {p}, min);
    if i < |s.lists[p]| {
      assert CleanLists(s, peers + {p}, min).lists == c.lists[p := Without(s.lists[p], i)];
    } else {
      assert c.lookup - gone == c.lookup;
      assert CleanLists(s, peers + {p}, min).lists == c.lists;
    }
  }

  lemma CleanNothing(s: Store, min: Time)
    ensures CleanLists(s, {}, min) == s
  {
    assert CleanLists(s, {}, min).lists == s.lists;
    assert DroppedIds(s, {}, min) == {};
    assert CleanLists(s, {}, min).lookup == s.lookup;
  }

  // ---------------------------------------------------------------------------
  // Streaming

  /** A version vector; a peer that is not named counts as zero. */
  type Vector = map<string, Serial>

  function At(v: Vector, peer: string): Serial {
    if peer in v then v[peer] else 0
  }

  function Since(l: seq<Stamped>, start: Serial): seq<Stamped> {
    if l == [] then []
    else
      var last := l[|l| - 1];
      Since(l[..|l| - 1], start) + (if last.stamp.serial >= start then [last] else [])
  }

  /** The lists one after the other, in the order the map happened to be walked. */
  function Streamed(lists: map<string, seq<Stamped>>, from: Vector, order: seq<string>): seq<Stamped> {
    if order == [] then []
    else
      var p := order[|order| - 1];
      Streamed(lists, from, order[..|order| - 1]) +
      Since(if p in lists then lists[p] else [], At(from, p))
  }

  predicate Distinct(order: seq<string>) {
    forall i, j :: 0 <= i < j < |order| ==> order[i] != order[j]
  }

  /** `order` visits each of `keys` once. */
  ghost predicate Visits(order: seq<string>, keys: set<string>) {
    Distinct(order) && forall p :: p in order <==> p in keys
  }

  // ---------------------------------------------------------------------------
  // The store itself

  class SessionStore {
    const id: string
    var curr: Serial
    var lookup: map<string, Session>
    var store: map<string, seq<Stamped>>

    function State(): Store
      reads this
    {
      Store(id, curr, lookup, store)
    }

    ghost predicate Valid()
      reads this
    {
      WellKept(State()) && IndexSound(State())
    }

    constructor (peerId: string)
      ensures Valid() && State() == Fresh(peerId)
    {
      id := peerId;
      curr := 0;
      lookup := map[];
      store := map[];
    }

    method Get(key: string) returns (sess: Option<Session>)
      requires Valid()
      ensures sess == Lookup(State(), key)
      ensures sess.Some? ==>
        sess.value.id == key && exists t: Stamp :: Holds(State(), Stamped(sess.value, t))
    {
      if key in lookup {
        sess := Some(lookup[key]);
      } else {
        sess := None;
      }
    }

    method Set(sess: Stamped) returns (res: Option<Stamped>)
      requires Valid()
      modifies this
      ensures Valid()
      ensures (State(), res) == Put(old(State()), sess)
    {
      SetKeepsOrder(State(), sess);
      SetKeepsIndexSound(State(), sess);
      var x := sess;
      if x.stamp == ZERO_STAMP {
        curr := (curr + 1) % U64;
        x := x.(stamp := Stamp(id, curr));
      }
      var peer := x.stamp.peer;
      var l := if peer in store then store[peer] else [];
      if |l| > 0 && x.stamp.serial <= l[|l| - 1].stamp.serial {
        return None;
      }
      store := store[peer := l + [x]];
      lookup := lookup[x.session.id := x.session];
      return Some(x);
    }

    /** The stream of a store that nothing changes meanwhile. */
    method Stream(from: Vector) returns (order: seq<string>, out: seq<Stamped>)
      ensures Visits(order, store.Keys)
      ensures out == Streamed(store, from, order)
    {
      var snapshot := store;
      var todo := snapshot.Keys;
      order, out := [], [];
      while todo != {}
        invariant Distinct(order) && todo <= snapshot.Keys
        invariant forall p :: p in order <==> p in snapshot.Keys - todo
        invariant out == Streamed(snapshot, from, order)
        decreases todo
      {
        var k :| k in todo;
        assert k !in order;
        var part := StreamList(snapshot[k], At(from, k));
        assert (order + [k])[..|order|] == order;
        order := order + [k];
        out := out + part;
        todo := todo - {k};
      }
    }

    static method StreamList(l: seq<Stamped>, start: Serial) returns (out: seq<Stamped>)
      ensures out == Since(l, start)
    {
      out := [];
      for i := 0 to |l|
        invariant out == Since(l[..i], start)
      {
        assert l[..i + 1][..i] == l[..i];
        if l[i].stamp.serial >= start {
          out := out + [l[i]];
        }
      }
      assert l[..|l|] == l;
    }

    method Delete(peer: string, i: nat)
      requires Valid() && i < |Entries(State(), peer)|
      modifies this
      ensures Valid()
      ensures State() == Remove(old(State()), peer, i)
    {
      RemoveKeeps(State(), peer, i);
      var v := store[peer][i];
      store := store[peer := store[peer][..i] + store[peer][i + 1..]];
      lookup := lookup - {v.session.id};
    }

    method Clean(min: Time)
      requires Valid()
      modifies this
      ensures Valid()
      ensures State() == CleanPass(old(State()), min)
    {
      ghost var s, done: set<string> := State(), {};
      var todo := store.Keys;
      CleanNothing(s, min);
      while todo != {}
        invariant todo !! done && todo + done == s.lists.Keys
        invariant Valid() && State() == CleanLists(s, done, min)
        decreases todo
      {
        var p :| p in todo;
        CleanOneMore(s, done, p, min);
        CleanList(p, min);
        todo, done := todo - {p}, done + {p};
      }
    }

    /** The inner walk: `Next` of an element that was just removed is nil. */
    method CleanList(p: string, min: Time)
      requires Valid() && p in store
      modifies this
      ensures Valid()
      ensures State() == Visit(old(State()), p, min)
    {
      var i := 0;
      var more := |store[p]| > 0;
      ghost var l := store[p];
      ghost var first := FirstExpired(l, min);
      while more
        invariant Valid() && i <= |l|
        invariant more ==> State() == old(State()) && i < |l| && i <= first
        invariant !more ==>
          State() == if first < |l| then Remove(old(State()), p, first) else old(State())
        decreases more, |l| - i
      {
        if store[p][i].session.expiry < min {
          Delete(p, i);
          more := false;
        } else {
          i := i + 1;
          more := i < |store[p]|;
        }
      }
    }
  }
}
